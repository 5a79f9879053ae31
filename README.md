# TiKu question bank — a verified Dafny model of its core

TiKu is a question-bank system: an ASP.NET Core back end that keeps questions,
a forest of knowledge points, exam papers, exams with timed attempts, and each
student's wrong-question book, favourites and notes, plus a React admin front
end. This project models the core of that system in Dafny 4.11 and proves
properties of the model:

- **Exam attempt engine** (`exam_repository.dfy`, `exam_service.dfy`): the
  eligibility check, start or resume of an attempt with one blank answer row per
  paper question, answer saving under the time limit, and submission with
  automatic grading of objective questions (trimmed, upper-cased comparison;
  order-insensitive multiple choice; the paper's own score per question;
  all-or-nothing `IsGraded`).
- **Knowledge-point forest** (`knowledge_point_service.dfy`): levels, sibling
  sort order, reparenting guarded by the upward ancestor walk, guarded soft
  delete, and the three-level tree.
- **Question import** (`question_import_service.dfy`, `question_import_save.dfy`):
  the `---` block parser with its key/value lines, alias tables and running line
  number, the per-record validation, and the batch save that keeps counters
  and creates each missing knowledge point once.
- **Keyed tables**: the learning records (`learning_service.dfy`), paper
  composition and its link rows (`paper_service.dfy`, `paper_repository.dfy`),
  question search, editing and soft delete (`question_service.dfy`), and user
  editing and statistics (`user_service.dfy`).
- **Front-end helpers**: the authentication context (`auth_context.dfy`) and the
  exam list's status classifier and duration text (`exams_page.dfy`).

`common.dfy` holds sequence and string helpers (filters, counts, sums, sorting,
trimming, splitting, integer text), `domain.dfy` the entities and enums, and
`store.dfy` the database as one class whose fields are the tables.

Modelling conventions:

- The database is the class `Store.Database`. Each table is a `seq` of records
  that carry their own id. Every service operation is a method on that object.
  Its `modifies` clause names exactly the tables it writes, and its `ensures`
  ties the result and the new tables to a pure specification function of the
  old tables. The properties are lemmas about those functions.
- `DateTime.UtcNow` is an integer parameter `now`, counted in 100 ns ticks as .NET does.
- `Guid.NewGuid()` is `FreshId`: one more than the largest id in the table.
- `BaseEntity`, which declares `Id`, `CreatedAt`, `UpdatedAt` and `IsDeleted`, is not part of this model. A new row is assumed to get a fresh id and `CreatedAt = now` when it is built. Whether a new row's `UpdatedAt` starts as `now` or empty is a choice of the model, and no proved property depends on it.
- The `ApiResponse` envelope is `Result` (data and message, or an error message).
- An exception that reaches the caller is `Outcome.Thrown`.
- The store is PostgreSQL (Program.cs:18). Where its behaviour shows, the model follows it: a nullable column sorted descending puts NULLs first, and a negative OFFSET or LIMIT is refused.
- The soft-delete query filter is explicit. Lookups see only rows whose `isDeleted` is false.
- `QuestionType` has a constructor `Unset` for the value 0. A C# field holds that value before any assignment.
- Culture-sensitive case mapping and ordering are treated as ASCII and ordinal.
- Unique indexes and keys become table invariants. These are one wrong-question record and one favourite per (user, question), and the (paper, question) and (question, knowledge point) composite keys. E-mail addresses are kept unique among visible users, which is what the user update checks.
- Knowledge-point names have no unique index. Visible names can repeat, and then the import's `ToDictionary` throws (`NameIndex`).
- Each modifying operation is proved to preserve the invariants that apply to it.

## Model

| member | source | states |
|---|---|---|
| Common.PagingError | QuestionBankAPI/QuestionBank.Application/Services/QuestionService.cs:84-85 | a query runs exactly when the page size is zero, or positive with a page number of at least one; a negative offset is reported first, and the limit message comes exactly when the size is negative and the page number at most one |
| ExamRepository.FindExam | QuestionBankAPI/QuestionBank.Infrastructure/Repositories/ExamRepository.cs:120-122 | a found exam has the id and is not soft-deleted; none found means no visible exam has the id |
| ExamRepository.AttemptCount | QuestionBankAPI/QuestionBank.Infrastructure/Repositories/ExamRepository.cs:112-116 | counts the user's visible attempts on the exam, submitted or not; zero exactly when there are none |
| ExamRepository.AttemptCountAppend | QuestionBankAPI/QuestionBank.Infrastructure/Repositories/ExamRepository.cs:112-116 | one more attempt of that user on that exam raises the count by one, any other row leaves it |
| ExamRepository.CanUserTakeExam | QuestionBankAPI/QuestionBank.Infrastructure/Repositories/ExamRepository.cs:118-142 | false for a missing exam; otherwise true exactly when the exam is Published or InProgress, its window holds now with both bounds inclusive and unset bounds open, and the user has fewer attempts than MaxAttempts |
| ExamRepository.CanTakeAntitoneInAttempts | QuestionBankAPI/QuestionBank.Infrastructure/Repositories/ExamRepository.cs:136-139 | an extra attempt never makes a user eligible who was not |
| ExamRepository.GetActiveExams | QuestionBankAPI/QuestionBank.Infrastructure/Repositories/ExamRepository.cs:55-66 | exactly the visible Published exams whose window holds now, each as often as stored, ordered by start time with unset starts first |
| ExamRepository.GetUpcomingExams | QuestionBankAPI/QuestionBank.Infrastructure/Repositories/ExamRepository.cs:68-79 | exactly the visible Published exams with a start after now, as often as stored, ordered by start time |
| ExamRepository.GetOngoingExams | QuestionBankAPI/QuestionBank.Infrastructure/Repositories/ExamRepository.cs:81-92 | exactly the visible InProgress exams and the Published ones started by now and not yet ended |
| ExamRepository.ActiveUpcomingDisjoint | QuestionBankAPI/QuestionBank.Infrastructure/Repositories/ExamRepository.cs:55-79 | no exam is listed as both active and upcoming |
| ExamRepository.OngoingIsInProgressOrStartedActive | QuestionBankAPI/QuestionBank.Infrastructure/Repositories/ExamRepository.cs:55-92 | the ongoing listing is the InProgress exams plus the active exams that have a start time |
| ExamRepository.UpdateExamStatus | QuestionBankAPI/QuestionBank.Infrastructure/Repositories/ExamRepository.cs:94-104 | false and nothing changed for a missing exam; otherwise true and only that exam's Status and UpdatedAt change |
| ExamService.AttemptIndex | QuestionBankAPI/QuestionBank.Application/Services/ExamService.cs:144-146 | the first visible attempt row with the id, or none when no visible row has it |
| ExamService.PendingIndex | QuestionBankAPI/QuestionBank.Application/Services/ExamService.cs:99-102 | an unsubmitted visible attempt of this user on this exam, or none when there is no such attempt |
| ExamService.BlankAnswers | QuestionBankAPI/QuestionBank.Application/Services/ExamService.cs:127-132 | one empty answer per paper link, in link order, for the new attempt and that link's question |
| ExamService.NewAttempt | QuestionBankAPI/QuestionBank.Application/Services/ExamService.cs:114-122 | the new attempt's id differs from every stored attempt's |
| ExamService.StartIneligibleChangesNothing | QuestionBankAPI/QuestionBank.Application/Services/ExamService.cs:86-90 | an ineligible user gets the eligibility error and no table changes |
| ExamService.ResumeOnlyBelowLimit | QuestionBankAPI/QuestionBank.Application/Services/ExamService.cs:86-109 | with a pending attempt, the resume message comes exactly when the user is eligible; at the MaxAttempts limit the pending attempt is refused; a resume returns the pending attempt and writes nothing |
| ExamService.StartCreatesAttemptAndAnswers | QuestionBankAPI/QuestionBank.Application/Services/ExamService.cs:111-139 | an eligible user without a pending attempt gets one new unsubmitted, ungraded attempt numbered count+1 and started now, with one empty answer per paper question appended after the old answers |
| ExamService.StartKeepsAttemptLimit | QuestionBankAPI/QuestionBank.Application/Services/ExamService.cs:83-140 | starting never takes the user's attempt count above MaxAttempts |
| ExamService.AppendBlankAnswers | QuestionBankAPI/QuestionBank.Application/Services/ExamService.cs:128-134 | the loop appends exactly the empty answers of the paper links to the answer table |
| ExamService.StartExam | QuestionBankAPI/QuestionBank.Application/Services/ExamService.cs:83-140 | returns and writes exactly what the start transition gives (its lemmas above) |
| ExamService.AnswerIndex | QuestionBankAPI/QuestionBank.Application/Services/ExamService.cs:175-181 | the first visible answer row of the attempt for the question, or none when there is no such row |
| ExamService.SubmitAnswerSpec | QuestionBankAPI/QuestionBank.Application/Services/ExamService.cs:142-189 | a refusal leaves the answers unchanged; success carries true |
| ExamService.SaveChangesOneAnswer | QuestionBankAPI/QuestionBank.Application/Services/ExamService.cs:183-186 | a saved answer changes only that row's UserAnswer and UpdatedAt |
| ExamService.SaveRejections | QuestionBankAPI/QuestionBank.Application/Services/ExamService.cs:148-181 | the guards in order: missing attempt, another user's attempt, a submitted attempt, time over; otherwise success exactly when the answer row exists |
| ExamService.SaveLastWriteWins | QuestionBankAPI/QuestionBank.Application/Services/ExamService.cs:183-186 | saving twice for a question leaves the same table as saving the second answer alone |
| ExamService.SubmitAnswer | QuestionBankAPI/QuestionBank.Application/Services/ExamService.cs:142-189 | returns and writes exactly what the save transition gives |
| ExamService.Tokens | QuestionBankAPI/QuestionBank.Application/Services/ExamService.cs:251-252 | splitting on commas gives one more option than there are commas; no option holds a comma, and none starts or ends in white space |
| ExamService.MultipleChoiceIsOrderInsensitive | QuestionBankAPI/QuestionBank.Application/Services/ExamService.cs:249-256 | a multiple-choice answer is correct exactly when its comma-separated options are the key's as a multiset, in any order |
| ExamService.NormalizeIgnoresCaseAndSpace | QuestionBankAPI/QuestionBank.Application/Services/ExamService.cs:245-246 | the normalised form ignores letter case and surrounding white space |
| ExamService.AnswerMatchIgnoresCase | QuestionBankAPI/QuestionBank.Application/Services/ExamService.cs:245-263 | lower-casing the user's answer never changes whether it matches |
| ExamService.GradeAnswer | QuestionBankAPI/QuestionBank.Application/Services/ExamService.cs:227-273 | skipped exactly when the question or its paper link is missing; subjective exactly for a non-objective type; an objective answer is correct exactly when it is non-empty and matches the key, scoring the paper's score when correct and 0 otherwise |
| ExamService.LinkFor | QuestionBankAPI/QuestionBank.Application/Services/ExamService.cs:229-230 | a found link is in the paper and names the question; none found means no link names it |
| ExamService.GradeAll | QuestionBankAPI/QuestionBank.Application/Services/ExamService.cs:225-274 | every answer row is replaced by its graded form, position by position |
| ExamService.ObjectiveTotalBounds | QuestionBankAPI/QuestionBank.Application/Services/ExamService.cs:225-274 | with non-negative paper scores, the objective subtotal lies between 0 and the sum of the paper scores of the objective answers |
| ExamService.FinishAttempt | QuestionBankAPI/QuestionBank.Application/Services/ExamService.cs:216-280 | the attempt becomes submitted at now; IsGraded and TotalScore are set only when no question is subjective; every other field is kept |
| ExamService.SubmitExamSpec | QuestionBankAPI/QuestionBank.Application/Services/ExamService.cs:191-287 | a refusal leaves the attempt and answer tables unchanged |
| ExamService.SubmitGradesAllOrNothing | QuestionBankAPI/QuestionBank.Application/Services/ExamService.cs:212-287 | a successful submit is the user's own unsubmitted attempt; it becomes submitted; with no subjective question it is graded with the objective total and the auto-graded message, otherwise the subtotal is discarded and the manual-grading message returned; only that attempt row changes and the answers are the graded ones |
| ExamService.GradingTouchesOnlyObjectiveAnswers | QuestionBankAPI/QuestionBank.Application/Services/ExamService.cs:225-274 | grading leaves subjective and skipped answers untouched and sets only Score and IsCorrect on objective ones |
| ExamService.ScoreComesFromPaper | QuestionBankAPI/QuestionBank.Application/Services/ExamService.cs:238-263 | an objective answer scores its paper link's score when correct and 0 otherwise; an empty answer is wrong with score 0 |
| ExamService.SubmittedRowFound | QuestionBankAPI/QuestionBank.Application/Services/ExamService.cs:215-217 | after a submit the attempt is still found at the same row, submitted and owned by the user |
| ExamService.SubmitIsFinal | QuestionBankAPI/QuestionBank.Application/Services/ExamService.cs:158-160 | after a submit, a second submit is refused as already submitted and saving an answer is refused as closed (also ExamService.cs:212-214) |
| ExamService.GradeAnswers | QuestionBankAPI/QuestionBank.Application/Services/ExamService.cs:225-274 | the grading loop writes the graded answers and returns the objective subtotal and whether a subjective question was met |
| ExamService.SubmitExam | QuestionBankAPI/QuestionBank.Application/Services/ExamService.cs:191-287 | returns and writes exactly what the submit transition gives |
| ExamService.GetUserExamAttempts | QuestionBankAPI/QuestionBank.Application/Services/ExamService.cs:289-299 | the user's visible attempts, each as often as stored, newest first |
| KnowledgePointService.FindKp | QuestionBankAPI/QuestionBank.Application/Services/KnowledgePointService.cs:22-29 | a found node has the id and is not soft-deleted; none found means no visible node has it |
| KnowledgePointService.IsDescendant | QuestionBankAPI/QuestionBank.Application/Services/KnowledgePointService.cs:198-209 | the upward walk from the start node answers true exactly when the other node is a proper ancestor of it, for a walk known to end |
| KnowledgePointService.NoReturn | QuestionBankAPI/QuestionBank.Application/Services/KnowledgePointService.cs:198-209 | a walk that ends never returns to its start node, so the walk never reports a node as its own descendant |
| KnowledgePointService.CycleWalk | QuestionBankAPI/QuestionBank.Application/Services/KnowledgePointService.cs:201-207 | a parent chain that comes back to its start never ends, so the loop does not stop on a cycle |
| KnowledgePointService.MaxSortOrder | QuestionBankAPI/QuestionBank.Application/Services/KnowledgePointService.cs:191-193 | none exactly when there is no visible sibling under the parent; otherwise the greatest sibling sort order, reached by some sibling |
| KnowledgePointService.NextSortOrder | QuestionBankAPI/QuestionBank.Application/Services/KnowledgePointService.cs:189-196 | greater than every sibling's sort order; 1 without siblings; otherwise one past the largest |
| KnowledgePointService.LevelUnder | QuestionBankAPI/QuestionBank.Application/Services/KnowledgePointService.cs:84-94 | level 1 at the root; the parent-not-found error for a missing parent; otherwise one below the parent |
| KnowledgePointService.CreateSpec | QuestionBankAPI/QuestionBank.Application/Services/KnowledgePointService.cs:81-107 | a refusal leaves the table unchanged |
| KnowledgePointService.CreatePlacesNode | QuestionBankAPI/QuestionBank.Application/Services/KnowledgePointService.cs:81-107 | a missing parent is refused with no change; otherwise one new visible node with a fresh id, the given name and parent, the level from the parent and the next sibling sort order is appended |
| KnowledgePointService.Create | QuestionBankAPI/QuestionBank.Application/Services/KnowledgePointService.cs:81-107 | returns and writes exactly what the create transition gives |
| KnowledgePointService.CreateKeepsParents | QuestionBankAPI/QuestionBank.Application/Services/KnowledgePointService.cs:81-107 | under the parent foreign key (ApplicationDbContext.cs:54-57) every parent id names a row, and a creation keeps it so |
| KnowledgePointService.CreatedLinks | QuestionBankAPI/QuestionBank.Application/Services/KnowledgePointService.cs:96-104 | after a creation only the new node's parent link is new, no old link leads to it, and its own leads to the requested parent |
| KnowledgePointService.CreateKeepsWalksFinite | QuestionBankAPI/QuestionBank.Application/Services/KnowledgePointService.cs:81-107 | if every parent walk ended within b steps before a creation, every walk ends within b + 1 steps after, and the parent key still holds |
| KnowledgePointService.UpdateSpec | QuestionBankAPI/QuestionBank.Application/Services/KnowledgePointService.cs:109-149 | the update as written; a refusal leaves the table unchanged |
| KnowledgePointService.Rewrite | QuestionBankAPI/QuestionBank.Application/Services/KnowledgePointService.cs:141-146 | only the node's row changes, and only its name, description, parent, level and UpdatedAt |
| KnowledgePointService.UpdateRejectsDescendant | QuestionBankAPI/QuestionBank.Application/Services/KnowledgePointService.cs:118-124 | moving a node under one of its own descendants is refused with the descendant message and nothing changes |
| KnowledgePointService.UpdateRewritesOnlyTheNode | QuestionBankAPI/QuestionBank.Application/Services/KnowledgePointService.cs:109-149 | a successful update changes only that row: new name, description and parent, UpdatedAt now, sort order kept, level kept when the parent is unchanged, else 1 at the root or one below the new parent |
| KnowledgePointService.UpdatedParents | QuestionBankAPI/QuestionBank.Application/Services/KnowledgePointService.cs:143 | after an update the node's parent is the requested one and every other node keeps its parent |
| KnowledgePointService.SelfParentPassesCheck | QuestionBankAPI/QuestionBank.Application/Services/KnowledgePointService.cs:118-124 | as written, for any node whose upward walk ends, making it its own parent passes the descendant check and succeeds, and from then on the walk from that node never ends |
| KnowledgePointService.UpdateSpecGuarded | QuestionBankAPI/QuestionBank.Application/Services/KnowledgePointService.cs:118-124 | the update with a self-parent refused like a descendant; a refusal leaves the table unchanged |
| KnowledgePointService.GuardedRefusesSelfParent | QuestionBankAPI/QuestionBank.Application/Services/KnowledgePointService.cs:118-124 | with the guard, a self-parent request is refused with no change, and every other request behaves as in the source |
| KnowledgePointService.GuardedUpdateKeepsWalksFinite | QuestionBankAPI/QuestionBank.Application/Services/KnowledgePointService.cs:109-149 | with the guard, if every parent walk ended before the update, every walk still ends afterwards, so the forest stays acyclic (also KnowledgePointService.cs:198-209) |
| KnowledgePointService.UpdateKeepsParents | QuestionBankAPI/QuestionBank.Application/Services/KnowledgePointService.cs:109-149 | the guarded update keeps the parent foreign key: a changed parent is a node that was found |
| KnowledgePointService.Update | QuestionBankAPI/QuestionBank.Application/Services/KnowledgePointService.cs:109-149 | returns and writes exactly what the guarded update transition gives, using the loop-based descendant walk; the walk from the new parent is required to end only when the descendant check runs |
| KnowledgePointService.DeleteSpec | QuestionBankAPI/QuestionBank.Application/Services/KnowledgePointService.cs:151-178 | a refusal leaves the table unchanged |
| KnowledgePointService.DeleteGuardsAndSoftDeletes | QuestionBankAPI/QuestionBank.Application/Services/KnowledgePointService.cs:151-178 | delete succeeds exactly when the node is visible, has no visible child and no question link; it then only sets that row's IsDeleted and UpdatedAt, and the node is no longer found |
| KnowledgePointService.Delete | QuestionBankAPI/QuestionBank.Application/Services/KnowledgePointService.cs:151-178 | returns and writes exactly what the delete transition gives |
| KnowledgePointService.MapToDto | QuestionBankAPI/QuestionBank.Application/Services/KnowledgePointService.cs:211-222 | copies the node's id, name, description, parent and level, with no children |
| KnowledgePointService.GetAll | QuestionBankAPI/QuestionBank.Application/Services/KnowledgePointService.cs:34-44 | every visible node, each as often as stored, ordered by level and then sort order |
| KnowledgePointService.GetRoots | QuestionBankAPI/QuestionBank.Application/Services/KnowledgePointService.cs:46-56 | exactly the visible nodes without a parent, by sort order |
| KnowledgePointService.GetChildren | QuestionBankAPI/QuestionBank.Application/Services/KnowledgePointService.cs:58-68 | exactly the visible children of the node, by sort order |
| KnowledgePointService.ChildrenOf | QuestionBankAPI/QuestionBank.Application/Services/KnowledgePointService.cs:182-186 | the loaded children are exactly the visible nodes whose parent is the node |
| KnowledgePointService.TreeOf | QuestionBankAPI/QuestionBank.Application/Services/KnowledgePointService.cs:224-235 | the node's id, name, description, parent and level; no children at depth 0; otherwise one child entry per loaded child, in order, each with that child's id |
| KnowledgePointService.TreeChildIsSubtree | QuestionBankAPI/QuestionBank.Application/Services/KnowledgePointService.cs:233 | the k-th child entry is the tree of the k-th visible child, one level shallower |
| KnowledgePointService.GetKnowledgeTree | QuestionBankAPI/QuestionBank.Application/Services/KnowledgePointService.cs:70-79 | the not-found error exactly when the node is not visible |
| KnowledgePointService.TreeHeight | QuestionBankAPI/QuestionBank.Application/Services/KnowledgePointService.cs:224-235 | a tree mapped from children loaded d levels deep is at most d+1 levels high |
| KnowledgePointService.KnowledgeTreeShape | QuestionBankAPI/QuestionBank.Application/Services/KnowledgePointService.cs:70-79 | the tree of a visible node has at most 4 levels and its first level is exactly the node's visible children (also KnowledgePointService.cs:180-187) |
| LearningService.WrongIndex | QuestionBankAPI/QuestionBank.Application/Services/LearningService.cs:37-38 | the user's visible record for the question, the first one, or none when there is none |
| LearningService.NewWrong | QuestionBankAPI/QuestionBank.Application/Services/LearningService.cs:55-68 | the new record's id differs from every stored record's |
| LearningService.AddWrongNeedsQuestion | QuestionBankAPI/QuestionBank.Application/Services/LearningService.cs:30-34 | a missing or deleted question is refused with the not-found message and nothing is written |
| LearningService.AddWrongCounts | QuestionBankAPI/QuestionBank.Application/Services/LearningService.cs:27-74 | for an existing question, adding succeeds, the returned record is the stored one, the count for the pair rises by one, the question is back in the book and LastWrongAt is now |
| LearningService.ReAddUpdatesInPlace | QuestionBankAPI/QuestionBank.Application/Services/LearningService.cs:40-53 | a second mistake updates the existing row in place: same id and CreatedAt, count plus one, removal flag cleared, every other row kept |
| LearningService.FirstAddCreatesRecord | QuestionBankAPI/QuestionBank.Application/Services/LearningService.cs:55-73 | a first mistake appends one fresh row with count 1, not removed, created now |
| LearningService.AddWrongKeepsPairsUnique | QuestionBankAPI/QuestionBank.Application/Services/LearningService.cs:27-74 | adding a mistake keeps the unique (UserId, QuestionId) index (also ApplicationDbContext.cs:203) |
| LearningService.RemoveWrongKeepsRecord | QuestionBankAPI/QuestionBank.Application/Services/LearningService.cs:109-125 | removal succeeds exactly when the record exists; it only sets IsRemoved and UpdatedAt, keeps the count and takes the question out of the book; otherwise the not-found message and no change |
| LearningService.RemoveWrongIdempotent | QuestionBankAPI/QuestionBank.Application/Services/LearningService.cs:109-125 | removing twice is removing once |
| LearningService.RemovedLeavesListing | QuestionBankAPI/QuestionBank.Application/Services/LearningService.cs:83 | after removal, the question is no longer in the user's listing and the unique index holds (also LearningService.cs:109-125) |
| LearningService.UserWrongList | QuestionBankAPI/QuestionBank.Application/Services/LearningService.cs:82-84 | the user's records that are not removed, each as often as stored, latest mistake first |
| LearningService.WrongQuestionsPage | QuestionBankAPI/QuestionBank.Application/Services/LearningService.cs:76-107 | the total counts the whole listing, the page number and size are echoed, and a page is no longer than the total or the page size |
| LearningService.GetWrongQuestionsSpec | QuestionBankAPI/QuestionBank.Application/Services/LearningService.cs:88-89 | the query is refused, with PostgreSQL's message, exactly when its offset or limit is negative; otherwise the answer is the page |
| LearningService.WrongPageContents | QuestionBankAPI/QuestionBank.Application/Services/LearningService.cs:76-107 | each page item is the DTO of one of the user's listed records, latest mistake first |
| LearningService.WrongItemsArePage | QuestionBankAPI/QuestionBank.Application/Services/LearningService.cs:86-99 | the items are the DTOs of the requested slice of the listing |
| LearningService.WrongPageItem | QuestionBankAPI/QuestionBank.Application/Services/LearningService.cs:87-90 | item k of page p is the DTO of listing position (p-1)*size+k whenever that position exists |
| LearningService.WrongByKnowledgePoint | QuestionBankAPI/QuestionBank.Application/Services/LearningService.cs:127-150 | exactly the user's listed records whose question is linked to the point, latest mistake first |
| LearningService.ByKnowledgePointIsSubBook | QuestionBankAPI/QuestionBank.Application/Services/LearningService.cs:127-150 | the per-point listing is the user's book cut down to the questions linked to the point |
| LearningService.FavoriteIndex | QuestionBankAPI/QuestionBank.Application/Services/LearningService.cs:162-163 | the user's visible favorite for the question, or none |
| LearningService.NewFavorite | QuestionBankAPI/QuestionBank.Application/Services/LearningService.cs:170-180 | the new favorite's id differs from every stored favorite's |
| LearningService.AddFavoriteOutcomes | QuestionBankAPI/QuestionBank.Application/Services/LearningService.cs:152-186 | a missing question and an existing favorite are refused with no change; success appends one favorite for the pair with the note, created now |
| LearningService.AddFavoriteKeepsPairsUnique | QuestionBankAPI/QuestionBank.Application/Services/LearningService.cs:152-186 | favoriting keeps the unique (UserId, QuestionId) index (also ApplicationDbContext.cs:223) |
| LearningService.RemoveFavoriteDeletes | QuestionBankAPI/QuestionBank.Application/Services/LearningService.cs:221-235 | removal succeeds exactly when the favorite exists, and then deletes exactly that row |
| LearningService.RemoveFavoriteClearsPair | QuestionBankAPI/QuestionBank.Application/Services/LearningService.cs:221-235 | under the unique index, no favorite for the pair remains after removal |
| LearningService.UpdateFavoriteNoteOnly | QuestionBankAPI/QuestionBank.Application/Services/LearningService.cs:237-262 | the note update succeeds exactly when the favorite exists, changes only its Note and UpdatedAt, and a later update overrides an earlier one |
| LearningService.UserFavoriteList | QuestionBankAPI/QuestionBank.Application/Services/LearningService.cs:194-196 | the user's favorites, each as often as stored, newest first |
| LearningService.FavoritesPage | QuestionBankAPI/QuestionBank.Application/Services/LearningService.cs:188-219 | the total counts all the user's favorites; page number and size echoed; a page is no longer than the total or the size |
| LearningService.GetFavoritesSpec | QuestionBankAPI/QuestionBank.Application/Services/LearningService.cs:200-201 | the query is refused, with PostgreSQL's message, exactly when its offset or limit is negative; otherwise the answer is the page |
| LearningService.FavoritePageContents | QuestionBankAPI/QuestionBank.Application/Services/LearningService.cs:188-219 | each page item is the DTO of one of the user's favorites, newest first |
| LearningService.FavoriteItemsArePage | QuestionBankAPI/QuestionBank.Application/Services/LearningService.cs:198-211 | the items are the DTOs of the requested slice of the listing |
| LearningService.NoteIndex | QuestionBankAPI/QuestionBank.Application/Services/LearningService.cs:274-275 | the user's visible note on the question, or none |
| LearningService.OwnedNoteIndex | QuestionBankAPI/QuestionBank.Application/Services/LearningService.cs:356-357 | the note with the id when it belongs to the caller, or none |
| LearningService.NoteDtoUpdatedAt | QuestionBankAPI/QuestionBank.Application/Services/LearningService.cs:429-450 | the DTO shows UpdatedAt when set and CreatedAt otherwise, never earlier than CreatedAt for a well-stamped note |
| LearningService.NewNote | QuestionBankAPI/QuestionBank.Application/Services/LearningService.cs:282-292 | the new note's id differs from every stored note's |
| LearningService.GetNoteByQuestionId | QuestionBankAPI/QuestionBank.Application/Services/LearningService.cs:300-315 | the not-found error exactly when the user has no note on the question; otherwise that note's DTO |
| LearningService.CreateNoteOutcomes | QuestionBankAPI/QuestionBank.Application/Services/LearningService.cs:264-298 | a missing question and an existing note are refused with no change; success appends one note, found afterwards by question, with the content and both stamps now |
| LearningService.UpdateNoteOwnerOnly | QuestionBankAPI/QuestionBank.Application/Services/LearningService.cs:350-371 | the update succeeds exactly when the caller owns the note; only that row's content and UpdatedAt change, and other users' notes never change |
| LearningService.DeleteNoteOwnerOnly | QuestionBankAPI/QuestionBank.Application/Services/LearningService.cs:373-391 | the delete succeeds exactly when the caller owns the note and then removes exactly that row; other users' notes never change |
| LearningService.CreateNoteKeepsOnePerPair | QuestionBankAPI/QuestionBank.Application/Services/LearningService.cs:264-298 | creating keeps at most one note per (user, question) |
| LearningService.UpdateNoteKeepsOnePerPair | QuestionBankAPI/QuestionBank.Application/Services/LearningService.cs:350-371 | updating keeps at most one note per (user, question) |
| LearningService.DeleteNoteKeepsOnePerPair | QuestionBankAPI/QuestionBank.Application/Services/LearningService.cs:373-391 | deleting keeps at most one note per (user, question) |
| LearningService.UserNoteList | QuestionBankAPI/QuestionBank.Application/Services/LearningService.cs:323-325 | the user's notes, each as often as stored, ordered by UpdatedAt descending as PostgreSQL does it, with a missing UpdatedAt first |
| LearningService.UnstampedNotesFirst | QuestionBankAPI/QuestionBank.Application/Services/LearningService.cs:325 | never-updated notes precede every updated one, and the updated ones run from the latest down |
| LearningService.UserNotesPage | QuestionBankAPI/QuestionBank.Application/Services/LearningService.cs:317-348 | the total counts all the user's notes; page number and size echoed; a page is no longer than the total or the size |
| LearningService.GetUserNotesSpec | QuestionBankAPI/QuestionBank.Application/Services/LearningService.cs:329-330 | the query is refused, with PostgreSQL's message, exactly when its offset or limit is negative; otherwise the answer is the page |
| LearningService.NotePageContents | QuestionBankAPI/QuestionBank.Application/Services/LearningService.cs:317-348 | each page item is the DTO of one of the user's notes |
| LearningService.NoteItemsArePage | QuestionBankAPI/QuestionBank.Application/Services/LearningService.cs:327-340 | the items are the DTOs of the requested slice of the listing |
| LearningService.CreateNoteKeepsStamped | QuestionBankAPI/QuestionBank.Application/Services/LearningService.cs:264-298 | creating keeps every note's UpdatedAt set and not before CreatedAt |
| LearningService.UpdateNoteKeepsStamped | QuestionBankAPI/QuestionBank.Application/Services/LearningService.cs:350-371 | updating keeps every note stamped |
| LearningService.DeleteNoteKeepsStamped | QuestionBankAPI/QuestionBank.Application/Services/LearningService.cs:373-391 | deleting keeps every note stamped |
| LearningService.StampedNotesListInOrder | QuestionBankAPI/QuestionBank.Application/Services/LearningService.cs:317-348 | over stamped notes, a page is in order of the shown UpdatedAt, latest first |
| LearningService.AddWrongQuestion | QuestionBankAPI/QuestionBank.Application/Services/LearningService.cs:27-74 | returns and writes exactly what the add transition gives |
| LearningService.RemoveWrongQuestion | QuestionBankAPI/QuestionBank.Application/Services/LearningService.cs:109-125 | returns and writes exactly what the remove transition gives |
| LearningService.MapWrongDtos | QuestionBankAPI/QuestionBank.Application/Services/LearningService.cs:93-97 | the loop maps every row to its DTO, in order |
| LearningService.GetWrongQuestions | QuestionBankAPI/QuestionBank.Application/Services/LearningService.cs:76-107 | returns the page the listing function gives |
| LearningService.GetWrongQuestionsByKnowledgePoint | QuestionBankAPI/QuestionBank.Application/Services/LearningService.cs:127-150 | returns the DTOs of the per-point listing |
| LearningService.AddFavorite | QuestionBankAPI/QuestionBank.Application/Services/LearningService.cs:152-186 | returns and writes exactly what the favorite transition gives |
| LearningService.RemoveFavorite | QuestionBankAPI/QuestionBank.Application/Services/LearningService.cs:221-235 | returns and writes exactly what the removal transition gives |
| LearningService.UpdateFavoriteNote | QuestionBankAPI/QuestionBank.Application/Services/LearningService.cs:237-262 | returns and writes exactly what the note-update transition gives |
| LearningService.MapFavoriteDtos | QuestionBankAPI/QuestionBank.Application/Services/LearningService.cs:205-209 | the loop maps every favorite to its DTO, in order |
| LearningService.GetFavorites | QuestionBankAPI/QuestionBank.Application/Services/LearningService.cs:188-219 | returns the page the listing function gives |
| LearningService.CreateNote | QuestionBankAPI/QuestionBank.Application/Services/LearningService.cs:264-298 | returns and writes exactly what the create transition gives |
| LearningService.UpdateNote | QuestionBankAPI/QuestionBank.Application/Services/LearningService.cs:350-371 | returns and writes exactly what the update transition gives |
| LearningService.DeleteNote | QuestionBankAPI/QuestionBank.Application/Services/LearningService.cs:373-391 | returns and writes exactly what the delete transition gives |
| LearningService.MapNoteDtos | QuestionBankAPI/QuestionBank.Application/Services/LearningService.cs:334-338 | the loop maps every note to its DTO, in order |
| LearningService.GetUserNotes | QuestionBankAPI/QuestionBank.Application/Services/LearningService.cs:317-348 | returns the page the listing function gives |
| PaperRepository.PaperIndex | QuestionBankAPI/QuestionBank.Infrastructure/Repositories/PaperRepository.cs:59-61 | a found paper has the id and is not soft-deleted; none found means no visible paper has the id |
| PaperRepository.PaperLinks | QuestionBankAPI/QuestionBank.Infrastructure/Repositories/PaperRepository.cs:66-68 | exactly the link rows of the paper, as stored |
| PaperRepository.LinkIndex | QuestionBankAPI/QuestionBank.Infrastructure/Repositories/PaperRepository.cs:77-81 | a found row links that paper and question; none found means no row does |
| PaperRepository.ScoreMapDefined | QuestionBankAPI/QuestionBank.Infrastructure/Repositories/PaperRepository.cs:141-149 | ToDictionary succeeds exactly when no question id repeats among the paper's rows |
| PaperRepository.ScoreMapEntries | QuestionBankAPI/QuestionBank.Infrastructure/Repositories/PaperRepository.cs:141-149 | the dictionary has one entry per row, maps each row's question to its score, and has no other keys |
| PaperRepository.ScoreMapKeys | QuestionBankAPI/QuestionBank.Infrastructure/Repositories/PaperRepository.cs:141-149 | the dictionary's keys are the rows' question ids |
| PaperRepository.QuestionScoresOnePerLink | QuestionBankAPI/QuestionBank.Infrastructure/Repositories/PaperRepository.cs:51-55 | under the unique (paper, question) key the scores dictionary exists, has as many entries as the paper's question count, its keys are the paper's questions and each maps to its row's score (also PaperRepository.cs:141-149) |
| PaperRepository.AddQuestionsRejections | QuestionBankAPI/QuestionBank.Infrastructure/Repositories/PaperRepository.cs:57-73 | a missing paper answers false and changes nothing; a key conflict changes nothing and happens exactly when the added rows break the (paper, question) key |
| PaperRepository.AddQuestionsAppends | QuestionBankAPI/QuestionBank.Infrastructure/Repositories/PaperRepository.cs:57-73 | on success the rows are appended, only the paper's total and update time change, and the total counts the added rows as well as the stored ones |
| PaperRepository.AddQuestionsCount | QuestionBankAPI/QuestionBank.Infrastructure/Repositories/PaperRepository.cs:51-55 | adding rows of the paper raises its question count by their number (also PaperRepository.cs:57-73) |
| PaperRepository.LinkOperationsNeedLink | QuestionBankAPI/QuestionBank.Infrastructure/Repositories/PaperRepository.cs:75-81 | without the (paper, question) row, remove, reorder and rescore answer false and change nothing (also PaperRepository.cs:98-104, PaperRepository.cs:118-124) |
| PaperRepository.RemoveQuestionOutcome | QuestionBankAPI/QuestionBank.Infrastructure/Repositories/PaperRepository.cs:75-96 | on success exactly that row is removed (as a multiset) and the paper's question count drops by one |
| PaperRepository.RemoveQuestionTotal | QuestionBankAPI/QuestionBank.Infrastructure/Repositories/PaperRepository.cs:75-96 | after removal the paper's total is the old sum minus the removed row's score |
| PaperRepository.UpdateOrderOnlyOrder | QuestionBankAPI/QuestionBank.Infrastructure/Repositories/PaperRepository.cs:98-116 | reordering changes only that row's order and the papers' update times |
| PaperRepository.UpdateScoreOutcome | QuestionBankAPI/QuestionBank.Infrastructure/Repositories/PaperRepository.cs:118-139 | rescoring changes only that row's score and moves the paper's total by the difference |
| PaperRepository.AddKeepsTotals | QuestionBankAPI/QuestionBank.Infrastructure/Repositories/PaperRepository.cs:57-73 | when every paper's total equals the sum of its rows before, it still does after adding rows |
| PaperRepository.RemoveKeepsTotals | QuestionBankAPI/QuestionBank.Infrastructure/Repositories/PaperRepository.cs:75-96 | removing a row keeps every paper's total equal to the sum of its rows |
| PaperRepository.UpdateOrderKeepsTotals | QuestionBankAPI/QuestionBank.Infrastructure/Repositories/PaperRepository.cs:98-116 | reordering keeps every paper's total equal to the sum of its rows |
| PaperRepository.UpdateScoreKeepsTotals | QuestionBankAPI/QuestionBank.Infrastructure/Repositories/PaperRepository.cs:118-139 | rescoring keeps every paper's total equal to the sum of its rows |
| PaperRepository.LinkOperationsKeepKeys | QuestionBankAPI/QuestionBank.Infrastructure/Repositories/PaperRepository.cs:57-139 | none of the four link operations breaks the unique (paper, question) key |
| PaperRepository.AsWrittenTotalsAreStale | QuestionBankAPI/QuestionBank.Infrastructure/Repositories/PaperRepository.cs:63-68 | as written, each of the three totals is the sum of the rows stored before the call, since the query runs before SaveChanges (also PaperRepository.cs:83-90, PaperRepository.cs:126-133) |
| PaperRepository.AddAsWrittenMissesNewRow | QuestionBankAPI/QuestionBank.Infrastructure/Repositories/PaperRepository.cs:63-68 | as written, adding one row of score 5 to an empty paper leaves its total 0 while its rows sum to 5 |
| PaperRepository.RemoveAsWrittenKeepsRemovedRow | QuestionBankAPI/QuestionBank.Infrastructure/Repositories/PaperRepository.cs:83-90 | as written, removing the only row, of score 5, leaves the total 5 while no rows remain |
| PaperRepository.UpdateScoreAsWrittenKeepsOldScore | QuestionBankAPI/QuestionBank.Infrastructure/Repositories/PaperRepository.cs:126-133 | as written, raising the only row's score from 5 to 8 leaves the total 5 |
| PaperRepository.AddQuestionsToPaper | QuestionBankAPI/QuestionBank.Infrastructure/Repositories/PaperRepository.cs:57-73 | the tables become those of the corrected add specification, with its reply |
| PaperRepository.RemoveQuestionFromPaper | QuestionBankAPI/QuestionBank.Infrastructure/Repositories/PaperRepository.cs:75-96 | the tables become those of the corrected remove specification, with its reply |
| PaperRepository.UpdateQuestionOrder | QuestionBankAPI/QuestionBank.Infrastructure/Repositories/PaperRepository.cs:98-116 | the tables become those of the reorder specification, with its reply |
| PaperRepository.UpdateQuestionScore | QuestionBankAPI/QuestionBank.Infrastructure/Repositories/PaperRepository.cs:118-139 | the tables become those of the corrected rescore specification, with its reply |
| PaperService.EntryIds | QuestionBankAPI/QuestionBank.Application/Services/PaperService.cs:72 | one id per requested entry, in entry order |
| PaperService.FoundQuestions | QuestionBankAPI/QuestionBank.Infrastructure/Repositories/QuestionRepository.cs:195-202 | exactly the live questions whose id was requested |
| PaperService.AllFoundIff | QuestionBankAPI/QuestionBank.Application/Services/PaperService.cs:72-78 | the found count equals the requested count exactly when no id repeats and every requested id names a live question |
| PaperService.FoundCount | QuestionBankAPI/QuestionBank.Infrastructure/Repositories/QuestionRepository.cs:195-202 | under the primary key each requested live question is found once: the found count is the number of distinct hit ids |
| PaperService.FoundIdElements | QuestionBankAPI/QuestionBank.Infrastructure/Repositories/QuestionRepository.cs:195-202 | the found questions' ids are exactly the requested ids that name live questions |
| PaperService.LinksFor | QuestionBankAPI/QuestionBank.Application/Services/PaperService.cs:96-105 | one link row per entry, in entry order, carrying the paper id and the entry's question, order and score |
| PaperService.LinksForTotal | QuestionBankAPI/QuestionBank.Application/Services/PaperService.cs:81 | the rows' scores add up to the entries' total (also PaperService.cs:96-105) |
| PaperService.LinksForOwn | QuestionBankAPI/QuestionBank.Application/Services/PaperService.cs:96-105 | every built row belongs to the paper |
| PaperService.LinksForOthers | QuestionBankAPI/QuestionBank.Application/Services/PaperService.cs:96-105 | no built row belongs to another paper |
| PaperService.LinksForKeys | QuestionBankAPI/QuestionBank.Application/Services/PaperService.cs:96-105 | with no repeated question the built rows have distinct (paper, question) keys |
| PaperService.PaperByIdReportsRows | QuestionBankAPI/QuestionBank.Application/Services/PaperService.cs:28-38 | not found exactly when no visible paper has the id, with 试卷不存在; otherwise the paper with its question count and its total equal to the sum of its rows (also PaperService.cs:247-265) |
| PaperService.DetailsOf | QuestionBankAPI/QuestionBank.Application/Services/PaperService.cs:214-241 | one detail per row, in row order |
| PaperService.OrderedLinks | QuestionBankAPI/QuestionBank.Application/Services/PaperService.cs:212-213 | the paper's rows sorted by question order, a permutation of them |
| PaperService.PaperDetailContents | QuestionBankAPI/QuestionBank.Application/Services/PaperService.cs:190-245 | not found exactly when no visible paper has the id; otherwise one detail per row of the paper, in non-decreasing question order, each describing a row of the paper and every row described |
| PaperService.CreatePaperAccepts | QuestionBankAPI/QuestionBank.Application/Services/PaperService.cs:69-78 | creation succeeds exactly when no requested id repeats and all name live questions; otherwise 部分题目不存在 and nothing changes |
| PaperService.CreatePaperAdds | QuestionBankAPI/QuestionBank.Application/Services/PaperService.cs:80-113 | on success one paper with a fresh id and the request's fields, total the entries' score sum, stamped now, is appended, with exactly its built rows; the reply carries its id and entry count |
| PaperService.UnknownPaperHasNoRows | QuestionBankAPI/QuestionBank.Application/Services/PaperService.cs:247-265 | with every row referencing a paper, an unknown paper id has no rows |
| PaperService.NewPaperLinks | QuestionBankAPI/QuestionBank.Application/Services/PaperService.cs:96-105 | rows appended for a new paper id are exactly that paper's rows |
| PaperService.CreatePaperKeepsTables | QuestionBankAPI/QuestionBank.Application/Services/PaperService.cs:69-114 | creation keeps unique paper ids, unique link keys, rows referencing papers, and totals equal to row sums |
| PaperService.CreateKeepsKeys | QuestionBankAPI/QuestionBank.Application/Services/PaperService.cs:96-105 | adding distinct-keyed rows of a new paper keeps link keys unique |
| PaperService.CreateKeepsReferences | QuestionBankAPI/QuestionBank.Application/Services/PaperService.cs:96-107 | rows added with their new paper still reference papers |
| PaperService.CreateKeepsTotals | QuestionBankAPI/QuestionBank.Application/Services/PaperService.cs:81-107 | a new paper whose total is its entries' sum keeps totals consistent |
| PaperService.OtherPaperUnchangedByAppend | QuestionBankAPI/QuestionBank.Application/Services/PaperService.cs:96-105 | the new rows leave other papers' sums alone |
| PaperService.UpdatePaperAccepts | QuestionBankAPI/QuestionBank.Application/Services/PaperService.cs:116-135 | update succeeds exactly when the paper exists and every requested id names a live question once; a missing paper gives 试卷不存在, otherwise 部分题目不存在; failures change nothing |
| PaperService.UpdatePaperReplaces | QuestionBankAPI/QuestionBank.Application/Services/PaperService.cs:137-166 | on success only that paper's title, description, total, duration and update time change, its rows are replaced by the built ones, other papers' rows stay |
| PaperService.ReplaceLinksOwn | QuestionBankAPI/QuestionBank.Application/Services/PaperService.cs:147-159 | after RemoveRange and the adds, the paper's rows are exactly the built ones |
| PaperService.ReplaceLinksOthers | QuestionBankAPI/QuestionBank.Application/Services/PaperService.cs:147-159 | replacing one paper's rows leaves every other paper's rows |
| PaperService.UpdatePaperKeepsTables | QuestionBankAPI/QuestionBank.Application/Services/PaperService.cs:116-167 | update keeps the paper tables valid and totals equal to row sums |
| PaperService.ReplaceKeepsKeys | QuestionBankAPI/QuestionBank.Application/Services/PaperService.cs:147-159 | distinct entries keep link keys unique after replacement |
| PaperService.ReplaceKeepsReferences | QuestionBankAPI/QuestionBank.Application/Services/PaperService.cs:147-159 | replaced rows still reference papers |
| PaperService.ReplaceKeepsTotals | QuestionBankAPI/QuestionBank.Application/Services/PaperService.cs:137-159 | the new total and the new rows agree, and other papers keep theirs |
| PaperService.DeletePaperAccepts | QuestionBankAPI/QuestionBank.Application/Services/PaperService.cs:169-188 | deletion succeeds exactly when the paper exists and no exam row, deleted or not, names it. It throws exactly when only soft-deleted exams name it, because the Restrict foreign key (also ApplicationDbContext.cs:142-145) refuses the delete. Otherwise the reply is 试卷不存在 or 该试卷已被用于考试，无法删除 and nothing changes |
| PaperService.DeletePaperRemoves | QuestionBankAPI/QuestionBank.Application/Services/PaperService.cs:184-187 | on success that paper and its rows are removed and every other paper's rows stay |
| PaperService.RemovedPaperIdGone | QuestionBankAPI/QuestionBank.Application/Services/PaperService.cs:184 | under the primary key the removed paper's id is gone |
| PaperService.RemovedPaperKeepsOthers | QuestionBankAPI/QuestionBank.Application/Services/PaperService.cs:184 | every other paper id stays |
| PaperService.DeletePaperKeepsTables | QuestionBankAPI/QuestionBank.Application/Services/PaperService.cs:169-188 | a delete that does not throw keeps the paper tables valid and the paper of every exam row present, soft-deleted rows included (also ApplicationDbContext.cs:142-145) |
| PaperService.DeleteKeepsKeysAndReferences | QuestionBankAPI/QuestionBank.Application/Services/PaperService.cs:184 | the remaining papers and rows keep their keys and references |
| PaperService.DeleteKeepsTotals | QuestionBankAPI/QuestionBank.Application/Services/PaperService.cs:184 | the remaining papers keep totals equal to their row sums |
| PaperService.BuildLinks | QuestionBankAPI/QuestionBank.Application/Services/PaperService.cs:96-105 | the foreach builds exactly the rows of the link specification |
| PaperService.CreatePaper | QuestionBankAPI/QuestionBank.Application/Services/PaperService.cs:69-114 | the reply and tables are those of the create specification |
| PaperService.UpdatePaper | QuestionBankAPI/QuestionBank.Application/Services/PaperService.cs:116-167 | the reply and tables are those of the update specification |
| PaperService.DeletePaper | QuestionBankAPI/QuestionBank.Application/Services/PaperService.cs:169-188 | the reply and tables are those of the delete specification; when it throws, both paper tables are unchanged |
| QuestionService.QuestionIndex | QuestionBankAPI/QuestionBank.Application/Services/QuestionService.cs:141-145 | a found question has the id and is not soft-deleted; not found exactly when no visible question has it |
| QuestionService.PointIdsOf | QuestionBankAPI/QuestionBank.Application/Services/QuestionService.cs:214-240 | exactly the knowledge points linked to the question |
| QuestionService.DtosOf | QuestionBankAPI/QuestionBank.Application/Services/QuestionService.cs:86-87 | one DTO per question, in order |
| QuestionService.GetQuestionByIdReports | QuestionBankAPI/QuestionBank.Application/Services/QuestionService.cs:20-33 | success exactly when a visible question has the id, otherwise 题目不存在; the DTO is that question's, listing exactly its linked points |
| QuestionService.SearchList | QuestionBankAPI/QuestionBank.Application/Services/QuestionService.cs:35-83 | exactly the matching questions, with their multiplicities, sorted newest first |
| QuestionService.SearchPage | QuestionBankAPI/QuestionBank.Application/Services/QuestionService.cs:35-97 | when the query runs the answer is a success, echoes page number and size, counts every match, and the page holds at most that many and at most the page size |
| QuestionService.SearchQuestions | QuestionBankAPI/QuestionBank.Application/Services/QuestionService.cs:82-86 | the search throws, with PostgreSQL's message, exactly when the offset (page number - 1) * size or the limit size is negative; otherwise the answer is the page |
| QuestionService.SearchListMembers | QuestionBankAPI/QuestionBank.Application/Services/QuestionService.cs:43-78 | every listed question is stored and passes every supplied filter |
| QuestionService.SearchResultsPassFilters | QuestionBankAPI/QuestionBank.Application/Services/QuestionService.cs:43-87 | every item on the page passes the filters, and the page is newest first |
| QuestionService.PageItemsPass | QuestionBankAPI/QuestionBank.Application/Services/QuestionService.cs:86-87 | mapping a sorted page of matches gives items that pass and stay newest first |
| QuestionService.SearchPageIsSlice | QuestionBankAPI/QuestionBank.Application/Services/QuestionService.cs:82-87 | item i of page n is match (n-1)·size + i of the sorted list |
| QuestionService.SearchFindsEveryMatch | QuestionBankAPI/QuestionBank.Application/Services/QuestionService.cs:82-87 | a first page large enough lists every matching question |
| QuestionService.BlankFiltersIgnored | QuestionBankAPI/QuestionBank.Application/Services/QuestionService.cs:43 | a blank keyword or chapter searches like an absent one (also QuestionService.cs:69) |
| QuestionService.UnfilteredSearchCountsVisible | QuestionBankAPI/QuestionBank.Application/Services/QuestionService.cs:37-80 | with no filter the total is the number of visible questions |
| QuestionService.LinksFor | QuestionBankAPI/QuestionBank.Application/Services/QuestionService.cs:120-124 | one link row per requested point, in order |
| QuestionService.LinkFailure | QuestionBankAPI/QuestionBank.Application/Services/QuestionService.cs:126-127 | saving the links throws exactly when a point repeats, a (question, point) key already exists, or a point is unknown (also QuestionService.cs:172-175) |
| QuestionService.CreateQuestionStores | QuestionBankAPI/QuestionBank.Application/Services/QuestionService.cs:99-137 | one question with a fresh id, the request's fields, status Enabled, is appended; the link save throws exactly on a bad link and then adds none; otherwise the request's links are appended and the reply is the new question's DTO with 题目创建成功 |
| QuestionService.UpdateQuestionRejects | QuestionBankAPI/QuestionBank.Application/Services/QuestionService.cs:139-148 | 题目不存在 exactly when no visible question has the id; the save throws exactly on a bad new link; failures change nothing (also QuestionService.cs:162-175) |
| QuestionService.UpdateQuestionReplaces | QuestionBankAPI/QuestionBank.Application/Services/QuestionService.cs:150-183 | on success only that question changes, to the request's fields stamped now; its links become exactly the requested points, other questions' links stay, and the DTO lists the requested points |
| QuestionService.DeleteQuestionIsSoft | QuestionBankAPI/QuestionBank.Application/Services/QuestionService.cs:186-200 | 题目不存在 exactly when no visible question has the id; otherwise the row stays but is marked deleted and hidden, other rows and all links unchanged |
| QuestionService.ByKnowledgePointExactly | QuestionBankAPI/QuestionBank.Application/Services/QuestionService.cs:202-212 | every listed question is linked to the point, every visible linked question is listed, and the count is that of the linked visible questions |
| QuestionService.LinksForUnique | QuestionBankAPI/QuestionBank.Application/Services/QuestionService.cs:120-124 | distinct points give distinct link keys |
| QuestionService.AddLinksKeepsKeys | QuestionBankAPI/QuestionBank.Application/Services/QuestionService.cs:126-127 | links holding none of the remaining keys keep the key unique |
| QuestionService.QuestionIdsSnoc | QuestionBankAPI/QuestionBank.Application/Services/QuestionService.cs:115 | appending a question appends its id |
| QuestionService.CreateQuestionLinksExactly | QuestionBankAPI/QuestionBank.Application/Services/QuestionService.cs:118-136 | with valid references, create throws exactly on a repeated or unknown point; otherwise the DTO lists exactly the requested points |
| QuestionService.CreateQuestionKeepsTables | QuestionBankAPI/QuestionBank.Application/Services/QuestionService.cs:99-137 | create keeps unique ids, unique link keys and the foreign keys, whether the save throws or not |
| QuestionService.SameIdKeepsQuestionIds | QuestionBankAPI/QuestionBank.Application/Services/QuestionService.cs:150-159 | rewriting a question in place keeps the ids |
| QuestionService.UpdateQuestionKeepsTables | QuestionBankAPI/QuestionBank.Application/Services/QuestionService.cs:139-184 | update keeps the keys and foreign keys |
| QuestionService.DeleteQuestionKeepsTables | QuestionBankAPI/QuestionBank.Application/Services/QuestionService.cs:186-200 | soft delete keeps the keys and foreign keys |
| QuestionService.CreateQuestion | QuestionBankAPI/QuestionBank.Application/Services/QuestionService.cs:99-137 | reply and tables are those of the create specification |
| QuestionService.UpdateQuestion | QuestionBankAPI/QuestionBank.Application/Services/QuestionService.cs:139-184 | reply and tables are those of the update specification |
| QuestionService.DeleteQuestion | QuestionBankAPI/QuestionBank.Application/Services/QuestionService.cs:186-200 | reply and table are those of the delete specification |
| UserService.UserIndex | QuestionBankAPI/QuestionBank.Application/Services/UserService.cs:83 | a found user has the id and is not soft-deleted; not found exactly when no visible user has it (also UserRepository.cs:115) |
| UserService.UpdateUserRejects | QuestionBankAPI/QuestionBank.Application/Services/UserService.cs:81-97 | 用户不存在 exactly when the user is missing; 该邮箱已被其他用户使用 exactly when the address changes to one another visible user holds; failures change nothing; keeping the address always succeeds |
| UserService.UpdateUserChangesContactOnly | QuestionBankAPI/QuestionBank.Application/Services/UserService.cs:99-107 | on success only that user's email, full name, phone and update time change, and the reply is its DTO |
| UserService.SameIdKeepsUserIds | QuestionBankAPI/QuestionBank.Application/Services/UserService.cs:99-105 | rewriting a user in place keeps the primary key |
| UserService.NewEmailKeepsEmails | QuestionBankAPI/QuestionBank.Application/Services/UserService.cs:90-102 | keeping the address, or taking a free one, keeps visible users' addresses distinct |
| UserService.UpdateUserKeepsTables | QuestionBankAPI/QuestionBank.Application/Services/UserService.cs:81-108 | updates keep ids and visible addresses unique |
| UserService.SetActiveReports | QuestionBankAPI/QuestionBank.Application/Services/UserService.cs:133-153 | 用户不存在 exactly when the user is missing, changing nothing; otherwise only that user's active flag and update time change, with 用户已激活 or 用户已禁用 (also UserRepository.cs:113-135) |
| UserService.SetActiveIdempotent | QuestionBankAPI/QuestionBank.Infrastructure/Repositories/UserRepository.cs:113-135 | switching twice the same way equals switching once at the later time |
| UserService.DeactivateThenActivate | QuestionBankAPI/QuestionBank.Infrastructure/Repositories/UserRepository.cs:113-135 | deactivating then activating an active user restores it up to the update time |
| UserService.SetActiveKeepsTables | QuestionBankAPI/QuestionBank.Infrastructure/Repositories/UserRepository.cs:113-135 | (de)activation keeps ids and visible addresses unique |
| UserService.HighestScore | QuestionBankAPI/QuestionBank.Application/Services/UserService.cs:173 | none exactly when no attempt is graded with a score; otherwise a graded score that is at least every other graded score (also UserService.cs:183) |
| UserService.UserStatsCounts | QuestionBankAPI/QuestionBank.Application/Services/UserService.cs:155-204 | success exactly when the user exists; completed attempts are the submitted ones and never exceed all attempts; correct answers never exceed answered ones; the highest score is the maximum over graded submitted attempts, none when there is none |
| UserService.FilterNarrowTo | QuestionBankAPI/QuestionBank.Application/Services/UserService.cs:172 | the user's submitted attempts are counted by one combined filter |
| UserService.NamesInjective | QuestionBankAPI/QuestionBank.Application/Services/UserService.cs:228-241 | distinct enum values have distinct names, so ToDictionary never meets a repeated key |
| UserService.QuestionsByType | QuestionBankAPI/QuestionBank.Application/Services/UserService.cs:223-231 | a type's name is a key exactly when a visible question has that type, and maps to the count of such questions |
| UserService.QuestionsByDifficulty | QuestionBankAPI/QuestionBank.Application/Services/UserService.cs:234-242 | a difficulty's name is a key exactly when a visible question has it, and maps to the count of such questions |
| UserService.OneRole | QuestionBankAPI/QuestionBank.Application/Services/UserService.cs:210-213 | each visible user counts under exactly one role |
| UserService.RoleCountsAddUp | QuestionBankAPI/QuestionBank.Application/Services/UserService.cs:210-213 | the three role counters add up to the user total (also UserRepository.cs:90-99) |
| UserService.SystemStatsBounds | QuestionBankAPI/QuestionBank.Application/Services/UserService.cs:206-220 | role counters add up to the user total, active users never exceed it, active exams never exceed all exams |
| UserService.OneTypeOneDifficulty | QuestionBankAPI/QuestionBank.Application/Services/UserService.cs:223-242 | each visible question counts under exactly one type and one difficulty |
| UserService.TypeCountsAddUp | QuestionBankAPI/QuestionBank.Application/Services/UserService.cs:223-231 | the per-type counts add up to the question total |
| UserService.DifficultyCountsAddUp | QuestionBankAPI/QuestionBank.Application/Services/UserService.cs:234-242 | the per-difficulty counts add up to the question total |
| UserService.UpdateUser | QuestionBankAPI/QuestionBank.Application/Services/UserService.cs:81-108 | reply and table are those of the update specification |
| UserService.ActivateUser | QuestionBankAPI/QuestionBank.Application/Services/UserService.cs:133-142 | reply and table are those of the activation specification |
| UserService.DeactivateUser | QuestionBankAPI/QuestionBank.Application/Services/UserService.cs:144-153 | reply and table are those of the deactivation specification |
| UserService.WrongCountFollowsRemoval | QuestionBankAPI/QuestionBank.Application/Services/UserService.cs:163-164 | the wrong-question counter skips removed records: soft-removing a counted record lowers it by one, restoring one raises it by one |
| UserService.ActiveExamsFollowStatus | QuestionBankAPI/QuestionBank.Application/Services/UserService.cs:217-218 | a status change moves the active-exam counter by one exactly when the exam enters or leaves Published/InProgress, and leaves the exam total |
| QuestionImportService.TrimKeep | QuestionBankAPI/QuestionBank.Application/Services/QuestionImportService.cs:143-146 | at most as many lines as pieces, each trimmed |
| QuestionImportService.TrimmedWhenNotBlank | QuestionBankAPI/QuestionBank.Application/Services/QuestionImportService.cs:144 | trimming a string that is not blank leaves it with no white space at either end |
| QuestionImportService.ConsTrimmed | QuestionBankAPI/QuestionBank.Application/Services/QuestionImportService.cs:143-146 | prepending a trimmed line keeps every line trimmed |
| QuestionImportService.TrimKeepKeeps | QuestionBankAPI/QuestionBank.Application/Services/QuestionImportService.cs:143-146 | every piece that is not blank survives, trimmed |
| QuestionImportService.TrimAvoids | QuestionBankAPI/QuestionBank.Application/Services/QuestionImportService.cs:144 | trimming adds no character (also QuestionImportService.cs:218) |
| QuestionImportService.TrimKeepAvoids | QuestionBankAPI/QuestionBank.Application/Services/QuestionImportService.cs:216-220 | trimming and dropping pieces adds no character |
| QuestionImportService.Lines | QuestionBankAPI/QuestionBank.Application/Services/QuestionImportService.cs:143-146 | every line of a piece is trimmed |
| QuestionImportService.SplitKeepsNonBlank | QuestionBankAPI/QuestionBank.Application/Services/QuestionImportService.cs:143 | splitting a non-blank string on white-space separators leaves a non-blank piece |
| QuestionImportService.TailNotBlank | QuestionBankAPI/QuestionBank.Application/Services/QuestionImportService.cs:143 | dropping a leading white-space character keeps a string non-blank |
| QuestionImportService.SplitLiftsNonBlank | QuestionBankAPI/QuestionBank.Application/Services/QuestionImportService.cs:143 | a non-blank piece of the split tail gives one of the split string |
| QuestionImportService.NonBlankHasLine | QuestionBankAPI/QuestionBank.Application/Services/QuestionImportService.cs:112 | a block that is not blank has at least one line, so ParseSingleQuestion never returns null for it (also QuestionImportService.cs:143-151) |
| QuestionImportService.KnowledgePointNames | QuestionBankAPI/QuestionBank.Application/Services/QuestionImportService.cs:215-220 | every knowledge point name is trimmed |
| QuestionImportService.NamesHaveNoSeparator | QuestionBankAPI/QuestionBank.Application/Services/QuestionImportService.cs:216-220 | no name contains one of the four separators |
| QuestionImportService.SplitPoint | QuestionBankAPI/QuestionBank.Application/Services/QuestionImportService.cs:163 | the key/value regex matches exactly at the first colon, when the key and value are there |
| QuestionImportService.FirstColonUnique | QuestionBankAPI/QuestionBank.Application/Services/QuestionImportService.cs:163 | only the first colon can split a line |
| QuestionImportService.SplitPointUnique | QuestionBankAPI/QuestionBank.Application/Services/QuestionImportService.cs:163 | a line splits at one position at most |
| QuestionImportService.KeyValueOfTrimmedLine | QuestionBankAPI/QuestionBank.Application/Services/QuestionImportService.cs:163-171 | on a trimmed line a match gives a non-blank key without colons and a non-blank value |
| QuestionImportService.KeyNotBlank | QuestionBankAPI/QuestionBank.Application/Services/QuestionImportService.cs:163 | the key of a match is not blank (also QuestionImportService.cs:170) |
| QuestionImportService.ValueNotBlank | QuestionBankAPI/QuestionBank.Application/Services/QuestionImportService.cs:163 | the value of a match is not blank (also QuestionImportService.cs:171) |
| QuestionImportService.KeyAvoidsColons | QuestionBankAPI/QuestionBank.Application/Services/QuestionImportService.cs:163 | the key holds no colon (also QuestionImportService.cs:170) |
| QuestionImportService.TrimNotBlank | QuestionBankAPI/QuestionBank.Application/Services/QuestionImportService.cs:170-171 | trimming a string with a non-white end leaves it not blank |
| QuestionImportService.ParseQuestionType | QuestionBankAPI/QuestionBank.Application/Services/QuestionImportService.cs:239-251 | a known alias, in any letter case, gives its type; anything else gives SingleChoice |
| QuestionImportService.ParsedTypeIsDeclared | QuestionBankAPI/QuestionBank.Application/Services/QuestionImportService.cs:239-251 | a type line never sets the unset value 0 |
| QuestionImportService.QuestionTypeIgnoresCase | QuestionBankAPI/QuestionBank.Application/Services/QuestionImportService.cs:241 | the aliases ignore letter case |
| QuestionImportService.ParseDifficulty | QuestionBankAPI/QuestionBank.Application/Services/QuestionImportService.cs:253-278 | a number 1-5 gives that level, another number Medium; otherwise a known word gives its level and anything else Medium |
| QuestionImportService.DifficultyRoundTrip | QuestionBankAPI/QuestionBank.Application/Services/QuestionImportService.cs:256-266 | writing a level as its number and parsing it gives the level back |
| QuestionImportService.ApplyField | QuestionBankAPI/QuestionBank.Application/Services/QuestionImportService.cs:173-222 | assigning a field never changes the line number |
| QuestionImportService.ApplyPair | QuestionBankAPI/QuestionBank.Application/Services/QuestionImportService.cs:173-222 | applying a key and value never changes the line number |
| QuestionImportService.ApplyLine | QuestionBankAPI/QuestionBank.Application/Services/QuestionImportService.cs:163-222 | applying a line never changes the line number |
| QuestionImportService.ApplyLines | QuestionBankAPI/QuestionBank.Application/Services/QuestionImportService.cs:160-223 | applying the lines never changes the line number |
| QuestionImportService.ApplyLinesStep | QuestionBankAPI/QuestionBank.Application/Services/QuestionImportService.cs:160-223 | the lines are applied one after the other, in order |
| QuestionImportService.ScoreRoundTrip | QuestionBankAPI/QuestionBank.Application/Services/QuestionImportService.cs:203-209 | a 分数 line with a 32-bit integer sets exactly that score |
| QuestionImportService.UnknownKeyIgnored | QuestionBankAPI/QuestionBank.Application/Services/QuestionImportService.cs:173-222 | a key the switch does not list leaves the record as it is |
| QuestionImportService.ApplyFieldFrame | QuestionBankAPI/QuestionBank.Application/Services/QuestionImportService.cs:173-222 | assigning one field leaves every other field, and an unparsable score leaves the score |
| QuestionImportService.ApplyLineFrame | QuestionBankAPI/QuestionBank.Application/Services/QuestionImportService.cs:163-222 | a line changes only the field it assigns |
| QuestionImportService.ApplyLineOverwrites | QuestionBankAPI/QuestionBank.Application/Services/QuestionImportService.cs:173-222 | what a line writes into its field does not depend on the record before |
| QuestionImportService.UntouchedField | QuestionBankAPI/QuestionBank.Application/Services/QuestionImportService.cs:153-158 | a field no line names keeps its default (also QuestionImportService.cs:160-223) |
| QuestionImportService.LastLineWins | QuestionBankAPI/QuestionBank.Application/Services/QuestionImportService.cs:160-223 | a field holds what the last line setting it wrote |
| QuestionImportService.SettersOfInit | QuestionBankAPI/QuestionBank.Application/Services/QuestionImportService.cs:160-223 | dropping the last line keeps an earlier last setter the last one |
| QuestionImportService.TextFieldPresent | QuestionBankAPI/QuestionBank.Application/Services/QuestionImportService.cs:160-223 | content (or answer) is non-blank after the lines exactly when it was before or some line names it |
| QuestionImportService.PieceOutcome | QuestionBankAPI/QuestionBank.Application/Services/QuestionImportService.cs:141-237 | a non-blank block is never skipped; it fails with 题干不能为空 exactly when no line names the content, with 答案不能为空 exactly when the content is named but the answer is not, and otherwise parses with its line number |
| QuestionImportService.NoTypeLineKeepsUnset | QuestionBankAPI/QuestionBank.Application/Services/QuestionImportService.cs:153-158 | without a type line the parsed record keeps type 0 |
| QuestionImportService.ParseSingleQuestion | QuestionBankAPI/QuestionBank.Application/Services/QuestionImportService.cs:141-237 | the loop computes the piece specification |
| QuestionImportService.ErrorRecord | QuestionBankAPI/QuestionBank.Application/Services/QuestionImportService.cs:128-132 | the error record's content starts with 解析失败: |
| QuestionImportService.RecordsOf | QuestionBankAPI/QuestionBank.Application/Services/QuestionImportService.cs:112-133 | a block gives at most one record, carrying the running line number |
| QuestionImportService.LineNumberAfter | QuestionBankAPI/QuestionBank.Application/Services/QuestionImportService.cs:108 | the running line number is at least 1 (also QuestionImportService.cs:135) |
| QuestionImportService.ParseBlocks | QuestionBankAPI/QuestionBank.Application/Services/QuestionImportService.cs:101-139 | no more records than blocks; line numbers lie between 1 and the final running number and strictly increase |
| QuestionImportService.OneRecordPerPiece | QuestionBankAPI/QuestionBank.Application/Services/QuestionImportService.cs:110-136 | one record per non-blank block, and the record at each non-blank block's rank is that block's |
| QuestionImportService.BlockCount | QuestionBankAPI/QuestionBank.Application/Services/QuestionImportService.cs:110-136 | the record count is the number of non-blank blocks |
| QuestionImportService.BlockAt | QuestionBankAPI/QuestionBank.Application/Services/QuestionImportService.cs:110-136 | the record of the non-blank block at position i is at its rank among non-blank blocks |
| QuestionImportService.ErrorRecordIsRejected | QuestionBankAPI/QuestionBank.Application/Services/QuestionImportService.cs:128-132 | an error record has no answer, so the save rejects it with 答案不能为空 (also QuestionImportService.cs:379-389) |
| QuestionImportService.ParsedRecordHasContentAndAnswer | QuestionBankAPI/QuestionBank.Application/Services/QuestionImportService.cs:226-236 | a parsed record passes the save's content and answer checks (also QuestionImportService.cs:379-389) |
| QuestionImportService.ParseQuestionText | QuestionBankAPI/QuestionBank.Application/Services/QuestionImportService.cs:101-139 | the loop computes the block specification |
| QuestionImportService.ValidateQuestion | QuestionBankAPI/QuestionBank.Application/Services/QuestionImportService.cs:379-404 | a record passes exactly when it has content and an answer, options if it is a choice, and a positive score; the first failing check's message is reported |
| QuestionImportSave.KnowledgePointIdsAppend | QuestionBankAPI/QuestionBank.Application/Services/QuestionImportService.cs:341 | appending a point appends its id |
| QuestionImportSave.BuildNames | QuestionBankAPI/QuestionBank.Application/Services/QuestionImportService.cs:290-291 | every visible point's name is a key, and every value is the id of a stored point |
| QuestionImportSave.BuildNamesIds | QuestionBankAPI/QuestionBank.Application/Services/QuestionImportService.cs:291 | under unique visible names each visible name maps to its own point's id |
| QuestionImportSave.BuildNamesInjective | QuestionBankAPI/QuestionBank.Application/Services/QuestionImportService.cs:291 | under distinct ids no two names map to one id |
| QuestionImportSave.NameIndex | QuestionBankAPI/QuestionBank.Application/Services/QuestionImportService.cs:290-291 | ToDictionary succeeds exactly when visible names are unique, and then maps each visible name to its point |
| QuestionImportSave.LinkNamesRows | QuestionBankAPI/QuestionBank.Application/Services/QuestionImportService.cs:319-350 | each name of a record adds one link, in order, to the point the dictionary then holds for it; earlier dictionary entries stay |
| QuestionImportSave.LinkNameCoherent | QuestionBankAPI/QuestionBank.Application/Services/QuestionImportService.cs:321-349 | one name keeps the staged points and the dictionary in step |
| QuestionImportSave.LinkNamesCoherent | QuestionBankAPI/QuestionBank.Application/Services/QuestionImportService.cs:319-350 | a record's names keep the staged points and the dictionary in step |
| QuestionImportSave.LinksDistinctIffNames | QuestionBankAPI/QuestionBank.Application/Services/QuestionImportService.cs:319-350 | a record links one point twice exactly when it names one point twice |
| QuestionImportSave.ImportOneTallied | QuestionBankAPI/QuestionBank.Application/Services/QuestionImportService.cs:293-368 | each record adds exactly one to the success or the failure count and keeps the tallies in step with the errors and the imported ids |
| QuestionImportSave.ImportAllTallied | QuestionBankAPI/QuestionBank.Application/Services/QuestionImportService.cs:293-368 | over all records success plus failure grows by the record count |
| QuestionImportSave.SaveCounters | QuestionBankAPI/QuestionBank.Application/Services/QuestionImportService.cs:280-377 | total is the record count and equals success plus failure; one error per failure; one imported id per success, and they are the new questions' ids |
| QuestionImportSave.ErrorsFor | QuestionBankAPI/QuestionBank.Application/Services/QuestionImportService.cs:358-367 | at most one error per record |
| QuestionImportSave.ImportOneErrors | QuestionBankAPI/QuestionBank.Application/Services/QuestionImportService.cs:358-367 | a failing record appends the error of its line, content and message; a passing one appends none |
| QuestionImportSave.ImportAllErrors | QuestionBankAPI/QuestionBank.Application/Services/QuestionImportService.cs:293-368 | the errors are those of the failing records, in order |
| QuestionImportSave.InitialCoherent | QuestionBankAPI/QuestionBank.Application/Services/QuestionImportService.cs:290-291 | the dictionary built at the start is in step with the table |
| QuestionImportSave.SaveErrorsAndPoints | QuestionBankAPI/QuestionBank.Application/Services/QuestionImportService.cs:280-377 | the errors are exactly those of the failing records; every created point is a level 1 root, its name is new and maps to it, and no two share a name |
| QuestionImportSave.CreatedPointsNew | QuestionBankAPI/QuestionBank.Application/Services/QuestionImportService.cs:331-342 | a created point is a visible root of level 1 whose name no visible point held |
| QuestionImportSave.CreatedPointsDistinct | QuestionBankAPI/QuestionBank.Application/Services/QuestionImportService.cs:342 | no two created points share a name |
| QuestionImportSave.ImportOneLinksOwned | QuestionBankAPI/QuestionBank.Application/Services/QuestionImportService.cs:319-356 | a record's join rows belong to its own question, whose id joins the imported ids only when the record succeeds, so every staged row still belongs to an imported question |
| QuestionImportSave.ImportAllLinksOwned | QuestionBankAPI/QuestionBank.Application/Services/QuestionImportService.cs:293-368 | over any run of records every staged join row belongs to an imported question |
| QuestionImportSave.SaveAllOrNothing | QuestionBankAPI/QuestionBank.Application/Services/QuestionImportService.cs:293-368 | a failed record stores neither its question nor its rows: the stored questions are exactly the imported ids, and every stored join row belongs to one of them |
| QuestionImportSave.FirstRepeatIsFirst | QuestionBankAPI/QuestionBank.Application/Services/QuestionImportService.cs:353 | the rows before the first repeated key are distinct, and the row at it repeats an earlier one |
| QuestionImportSave.NamingTwiceLinks | QuestionBankAPI/QuestionBank.Application/Services/QuestionImportService.cs:319-349 | on empty tables, a record naming a point twice creates that point once and gets two equal rows |
| QuestionImportSave.RepeatedRowStep | QuestionBankAPI/QuestionBank.Application/Services/QuestionImportService.cs:319-366 | as written, a valid record with a repeated key counts as failed; the points it created are stored, while its question and its rows before the repeat stay tracked |
| QuestionImportSave.AsWrittenFirstRecord | QuestionBankAPI/QuestionBank.Application/Services/QuestionImportService.cs:319-366 | as written, on empty tables, a valid record naming x twice fails, creates x, and leaves its question and first row tracked |
| QuestionImportSave.AsWrittenSecondRecord | QuestionBankAPI/QuestionBank.Application/Services/QuestionImportService.cs:353 | as written, the next successful add saves, storing the failed record's question and row before its own |
| QuestionImportSave.AsWrittenPair | QuestionBankAPI/QuestionBank.Application/Services/QuestionImportService.cs:293-368 | as written, those two records leave both questions and the failed one's row stored, one success, one failure, and nothing tracked |
| QuestionImportSave.PartlySavedRecordStored | QuestionBankAPI/QuestionBank.Application/Services/QuestionImportService.cs:280-377 | as written, the failed record's question, outside the imported ids, is stored with one join row |
| QuestionImportSave.LinkKnowledgePoints | QuestionBankAPI/QuestionBank.Application/Services/QuestionImportService.cs:319-350 | the foreach computes the linking specification |
| QuestionImportSave.ImportRecord | QuestionBankAPI/QuestionBank.Application/Services/QuestionImportService.cs:295-367 | the loop body computes the per-record specification |
| QuestionImportSave.ValidateAndSaveQuestions | QuestionBankAPI/QuestionBank.Application/Services/QuestionImportService.cs:280-377 | a throwing dictionary build changes nothing. Otherwise the answer is the tallied result, and the question, point and link tables grow by exactly the staged rows: every point created, also for a failed record, and the questions and links of the records that succeeded |
| QuestionImportSave.UploadCheck | QuestionBankAPI/QuestionBank.Application/Services/QuestionImportService.cs:30-38 | the upload passes exactly when the stream is non-empty and the name ends with the extension in any case; an empty stream is reported first (also QuestionImportService.cs:46-54) |
| QuestionImportSave.WordTextJoins | QuestionBankAPI/QuestionBank.Application/Services/QuestionImportService.cs:72-85 | the extracted text is the non-blank paragraphs, each followed by a newline |
| QuestionImportSave.JoinBeforeEmpty | QuestionBankAPI/QuestionBank.Application/Services/QuestionImportService.cs:81 | one more AppendLine adds the paragraph and a newline |
| QuestionImportSave.ParagraphText | QuestionBankAPI/QuestionBank.Application/Services/QuestionImportService.cs:74-85 | the paragraph loop computes the extracted text |
| QuestionImportSave.ImportFromText | QuestionBankAPI/QuestionBank.Application/Services/QuestionImportService.cs:44-58 | a failed upload check throws its message and changes nothing; otherwise the text's blocks are saved, with the answer and the three tables those of the save (also QuestionImportService.cs:93-99) |
| QuestionImportSave.ImportFromWord | QuestionBankAPI/QuestionBank.Application/Services/QuestionImportService.cs:28-42 | a failed upload check throws its message; a missing body throws 无法读取Word文档内容; both change nothing; otherwise the paragraphs' blocks are saved, with the answer and the three tables those of the save (also QuestionImportService.cs:60-91) |
| ExamsPage.StatusName | question-bank-admin/src/pages/ExamsPage.tsx:20-25 | a label exists exactly for the display statuses 0 to 3 |
| ExamsPage.DisplayLabel | question-bank-admin/src/pages/ExamsPage.tsx:117 | a display status with a label shows it; any other shows the 未开始 label |
| ExamsPage.WindowStatus | question-bank-admin/src/pages/ExamsPage.tsx:54-58 | the window part of the classifier gives 0, 1 or 2 |
| ExamsPage.GetExamStatus | question-bank-admin/src/pages/ExamsPage.tsx:47-59 | the result is a display status; 3 exactly when the stored status is 3, otherwise the window status |
| ExamsPage.WindowStatusClassified | question-bank-admin/src/pages/ExamsPage.tsx:54-58 | 未开始 exactly when the start is in the future or there is no start and the end has not passed; 进行中 exactly when the start has come and the end has not passed; 已结束 exactly when the start has come (or is unset) and the end has passed |
| ExamsPage.WindowStatusMonotone | question-bank-admin/src/pages/ExamsPage.tsx:54-58 | as time passes the window status only moves forward |
| ExamsPage.ShownStatusHasLabel | question-bank-admin/src/pages/ExamsPage.tsx:47-59 | every status the classifier produces has its own label, so the fallback is never taken (also ExamsPage.tsx:117) |
| ExamsPage.EndedExamShownCancelled | question-bank-admin/src/pages/ExamsPage.tsx:52 | as written, an exam the backend stores as Ended (3) is labelled 已取消 whatever its times (also ExamEnums.cs:8) |
| ExamsPage.CancelledExamShownRunning | question-bank-admin/src/pages/ExamsPage.tsx:52-56 | as written, a Cancelled exam (4) that has started is labelled 进行中 (also ExamEnums.cs:9) |
| ExamsPage.CancelledExamNeverShownCancelled | question-bank-admin/src/pages/ExamsPage.tsx:52 | as written, a Cancelled exam is never shown as cancelled (also ExamEnums.cs:9) |
| ExamsPage.GetExamStatusCorrected | question-bank-admin/src/pages/ExamsPage.tsx:47-59 | the corrected classifier gives a display status |
| ExamsPage.CorrectedShowsCancelledExactly | question-bank-admin/src/pages/ExamsPage.tsx:47-59 | corrected, an exam is labelled 已取消 exactly when the backend has it Cancelled, and every other exam, Ended included, gets its window status (also ExamEnums.cs:3-10) |
| ExamsPage.RowStatusLabel | question-bank-admin/src/pages/ExamsPage.tsx:116-117 | the row shows the label of the corrected status, which always exists |
| ExamsPage.TruncRem | question-bank-admin/src/pages/ExamsPage.tsx:75 | the JavaScript remainder: the floor remainder for a non-negative dividend, smaller than the divisor in size and signed like the dividend |
| ExamsPage.FormatDuration | question-bank-admin/src/pages/ExamsPage.tsx:73-80 | the text is never empty |
| ExamsPage.FormatDurationShape | question-bank-admin/src/pages/ExamsPage.tsx:73-80 | from 60 minutes on, whole hours with 小时 followed by the remaining minutes with 分钟 when there are some; below 60, the minutes with 分钟 |
| ExamsPage.DigitPrefixLength | question-bank-admin/src/pages/ExamsPage.tsx:73-80 | the leading digit run: all digits, followed by a non-digit or the end |
| ExamsPage.DigitPrefixOfNumber | question-bank-admin/src/pages/ExamsPage.tsx:77-79 | a number written out and followed by a non-digit reads back as exactly that number |
| ExamsPage.ParseMinutesPartOf | question-bank-admin/src/pages/ExamsPage.tsx:77 | the minutes part reads back as its number |
| ExamsPage.ParseNumberThen | question-bank-admin/src/pages/ExamsPage.tsx:77-79 | a number followed by a unit reads as that number and unit |
| ExamsPage.ParseMinutesOnly | question-bank-admin/src/pages/ExamsPage.tsx:79 | the minutes-only text reads back as its minutes |
| ExamsPage.ParseWholeHours | question-bank-admin/src/pages/ExamsPage.tsx:77 | the whole-hours text reads back as 60 times its hours |
| ExamsPage.ParseUnitsHoursThen | question-bank-admin/src/pages/ExamsPage.tsx:77 | an hours unit followed by a minutes part reads as 60 hours plus the minutes |
| ExamsPage.ParseHoursAndMinutes | question-bank-admin/src/pages/ExamsPage.tsx:77 | the hours-and-minutes text reads back as 60 hours plus the minutes |
| ExamsPage.ParseFormattedDuration | question-bank-admin/src/pages/ExamsPage.tsx:73-80 | reading the text back gives the original non-negative minute count: no information is lost |
| ExamsPage.FormatDurationInjective | question-bank-admin/src/pages/ExamsPage.tsx:73-80 | different non-negative counts are written differently |
| AuthContext.HasRoleFor | question-bank-admin/src/contexts/AuthContext.tsx:62-69 | a role holds only for a signed-in user |
| AuthContext.IsAuthenticatedFor | question-bank-admin/src/contexts/AuthContext.tsx:76 | signed in only with a token and a user |
| AuthContext.NoUserHasNoRole | question-bank-admin/src/contexts/AuthContext.tsx:63 | without a user no role holds |
| AuthContext.AdminHasEveryRole | question-bank-admin/src/contexts/AuthContext.tsx:65 | an administrator holds every role |
| AuthContext.TeacherRoles | question-bank-admin/src/contexts/AuthContext.tsx:67-68 | a teacher holds the student and teacher roles but not the administrator role |
| AuthContext.StudentRoles | question-bank-admin/src/contexts/AuthContext.tsx:68 | a student holds exactly the student role |
| AuthContext.HasRoleIsRankOrder | question-bank-admin/src/contexts/AuthContext.tsx:62-69 | a user holds a role exactly when its own role code is at least that role's: Student < Teacher < Admin |
| AuthContext.HasRoleTransitive | question-bank-admin/src/contexts/AuthContext.tsx:62-69 | holding a role carries every role that role holds |
| AuthContext.RestoreStep | question-bank-admin/src/contexts/AuthContext.tsx:24-34 | the mount effect only reads storage and always ends loading |
| AuthContext.LoginStep | question-bank-admin/src/contexts/AuthContext.tsx:36-53 | login never changes the loading flag |
| AuthContext.LogoutStep | question-bank-admin/src/contexts/AuthContext.tsx:55-60 | logout never changes the loading flag |
| AuthContext.RestoreTakesBothOrNothing | question-bank-admin/src/contexts/AuthContext.tsx:29-33 | with a non-empty token and a user stored, both are taken; otherwise only loading ends |
| AuthContext.RestoreAuthenticatesIff | question-bank-admin/src/contexts/AuthContext.tsx:24-34 | just after mount the user is signed in exactly when storage held both entries (also AuthContext.tsx:76) |
| AuthContext.LoginReports | question-bank-admin/src/contexts/AuthContext.tsx:36-53 | login answers true exactly on a successful response with data, and then the state and storage hold its token and user; otherwise nothing changes, also when the request throws |
| AuthContext.LoginGrantsServerRoles | question-bank-admin/src/contexts/AuthContext.tsx:40-46 | after a successful login with a non-empty token the user is signed in with exactly the roles of the returned user (also AuthContext.tsx:62-69, AuthContext.tsx:76) |
| AuthContext.LoginSurvivesReload | question-bank-admin/src/contexts/AuthContext.tsx:24-34 | a reload after a successful login comes back to the same user and token (also AuthContext.tsx:44-45) |
| AuthContext.LogoutSignsOut | question-bank-admin/src/contexts/AuthContext.tsx:55-60 | after logout nobody is signed in, no role holds and a reload stays signed out |
| AuthContext.LogoutIdempotent | question-bank-admin/src/contexts/AuthContext.tsx:55-60 | logging out twice is logging out once |
| AuthContext.LocalStorage.constructor | question-bank-admin/src/contexts/AuthContext.tsx:26-27 | storage starts with the given entries |
| AuthContext.AuthProvider.constructor | question-bank-admin/src/contexts/AuthContext.tsx:20-22 | the provider starts with no user, no token and loading |
| AuthContext.AuthProvider.Restore | question-bank-admin/src/contexts/AuthContext.tsx:24-34 | the state and storage after the mount effect are those of the restore step |
| AuthContext.AuthProvider.Login | question-bank-admin/src/contexts/AuthContext.tsx:36-53 | the answer, state and storage are those of the login step |
| AuthContext.AuthProvider.Logout | question-bank-admin/src/contexts/AuthContext.tsx:55-60 | the state and storage are those of the logout step |

## Left out

- Async execution, the sequential model, and races are not modelled: each operation runs to completion alone.
  This leaves out the check-then-act race on `IsSubmitted`.
  It also leaves out the window between StartExam's two saves, where the attempt is stored before its answer rows.
- ExamService `GetExamByIdAsync`, `GetAllExamsAsync` and `CreateExamAsync` are not modelled; they are reads and a plain insert outside the attempt engine.
- ExamRepository `GetExamWithPaperAsync`, `GetExamWithFullDetailsAsync`, `GetExamsByStatusAsync`, `GetExamsByCreatorAsync` and `GetExamAttemptCountAsync` are not modelled: they are eager-loading reads and plain filters.
- PaperRepository `GetPaperWithQuestionsAsync`, `GetPaperWithFullDetailsAsync`, `GetPapersByCreatorAsync` and `GetRecentPapersAsync` are not modelled, for the same reason.
- PaperService `GetAllPapersAsync` paging is not modelled; the same Skip/Take paging is modelled for question search and the learning lists.
- For the same reason, the nested question DTO inside a paper detail is not modelled.
- UserService lookups not modelled: `GetUserByIdAsync`, `GetUserByUsernameAsync`, `GetUserByEmailAsync`, `GetAllUsersAsync` and `GetUsersByRoleAsync` (plain lookups and paging).
- UserService `ChangePasswordAsync` is not modelled, because it depends on BCrypt verification and hashing.
- UserService computes `AverageScore`, `AccuracyRate` and `ServerTime` in floating point or from a clock. The stats datatypes leave these fields out.
- `Repository.cs` and `UnitOfWork` are not part of this model. `AddAsync` and `UpdateAsync` are taken to save at once, everywhere. The knowledge-point and user services call no `SaveChangesAsync` of their own, so their writes would otherwise never reach the store.
- Loading of navigations is not modelled (`Include`, explicit `LoadAsync`, lazy collections). A navigation is read as the table rows it refers to.
- EF's inner-join filtering of rows whose soft-deleted principal is excluded by a query filter is not modelled.
- Database failures are modelled only where an operation would otherwise break a key: duplicate or unknown knowledge-point ids in question links, duplicate names in the import dictionary or in one import record, and (paper, question) collisions. Which failure a store reports first, and how an index applies to soft-deleted rows, are not modelled.
- Restrict and cascade rules are modelled only where a hard delete meets them: a deleted paper takes its link rows with it, and any exam row, soft-deleted or not, makes the paper's delete throw. Every other delete in the core is a soft delete, or removes a favourite, a note or a paper-question row that no foreign key points at.
- 32-bit overflow of sums and counts is not modelled: integers are unbounded. The paging offset `(pageNumber - 1) * pageSize` is also an `int` product that can wrap; the model computes it exactly. LINQ `Sum` is checked and throws past 2^31 - 1. The grading loop's `totalScore +=` (ExamService.cs:266) is unchecked C# and wraps. The score parsed by the importer is the one place where the 32-bit range is modelled.
- DTO mapping helpers are modelled only for the fields the properties mention. The knowledge-point details inside a `QuestionDto` are reduced to the point ids.
- Reading the Word document is not modelled: the OpenXml body is a parameter, a paragraph list or none, as is reading the text stream into a string.
- ExamsPage's `new Date(...)` parsing, invalid date strings, `formatDateTime`, component state and loading are left out: times are integers and absent times are `None`.
- AuthContext's `JSON.stringify`/`JSON.parse` round trip of the stored user is left out: storage holds the user value itself. `JSON.parse` of a non-object string is not modelled either.
- Console logging, React context plumbing (`createContext`, `useAuth`) and the API client's interceptors are left out: they are I/O and framework glue.
- KnowledgePointService.IsDescendant: the walk is modelled on data whose parent walks all end, which is the table invariant. On a parent cycle that does not reach the target, the source loops forever; the model only exhibits such a cycle (`CycleWalk`).
- KnowledgePointService.Update: the method implements the guarded update (see Findings). The code as written is `UpdateSpec`, whose properties are proved alongside.
- PaperRepository.AddQuestionsToPaper, PaperRepository.RemoveQuestionFromPaper, PaperRepository.UpdateQuestionScore: the methods follow the corrected totals (see Findings). The code as written is modelled by the `AsWritten` functions.
- ExamsPage.RowStatusLabel: uses the corrected classifier (see Findings). The classifier as written is `GetExamStatus`.
- QuestionImportSave.ValidateAndSaveQuestions: follows the corrected save, in which a failed record stores neither its question nor any of its rows (see Findings). The rows a failed record leaves in EF's change tracker are modelled only by `SaveQuestionsAsWritten`. Which later save stores them is modelled, but not EF's ordering of the inserts.
- UserService.UpdateUser: the unique index on `Email` covers soft-deleted users too (ApplicationDbContext.cs:36). Taking a deleted user's address passes the check and then fails in the store; that failure is not modelled.

## Findings

| source | as written | input that shows it | evidently intended | confidence | as-written member | corrected member |
|---|---|---|---|---|---|---|
| QuestionBankAPI/QuestionBank.Application/Services/KnowledgePointService.cs:118-124 | the descendant check walks upward from the new parent and stops on reaching the node, so a request naming the node as its own parent passes, is saved, and makes a one-node cycle on which every later ancestor walk from that node never ends | node 1 at the root, update it with parentId 1 | refuse a node as its own parent like any of its descendants, keeping the forest acyclic | not executed | KnowledgePointService.SelfParentPassesCheck | KnowledgePointService.GuardedUpdateKeepsWalksFinite |
| QuestionBankAPI/QuestionBank.Infrastructure/Repositories/PaperRepository.cs:63-68 | the new total is summed from the store before `SaveChangesAsync`, so the rows being added are not in it | an empty paper, add one row of score 5: total stays 0 | the total is the sum of the paper's rows after the addition | not executed | PaperRepository.AddAsWrittenMissesNewRow | PaperRepository.AddKeepsTotals |
| QuestionBankAPI/QuestionBank.Infrastructure/Repositories/PaperRepository.cs:83-90 | the removed row is still counted in the new total | a paper whose only row has score 5, remove it: total stays 5 | the total drops by the removed row's score | not executed | PaperRepository.RemoveAsWrittenKeepsRemovedRow | PaperRepository.RemoveKeepsTotals |
| QuestionBankAPI/QuestionBank.Infrastructure/Repositories/PaperRepository.cs:126-133 | the total is summed with the row's old score | a paper whose only row has score 5, set it to 8: total stays 5 | the total moves by the score difference | not executed | PaperRepository.UpdateScoreAsWrittenKeepsOldScore | PaperRepository.UpdateScoreKeepsTotals |
| question-bank-admin/src/pages/ExamsPage.tsx:52 | the page treats stored status 3 as cancelled, but the back end's enum has Ended = 3 and Cancelled = 4 (QuestionBankAPI/QuestionBank.Domain/Enums/ExamEnums.cs:8-9), sent as numbers | an Ended exam (3) shows 已取消; a Cancelled exam (4) that has started shows 进行中 | label 已取消 exactly for the back end's Cancelled (4), and classify an Ended exam by its window | not executed | ExamsPage.EndedExamShownCancelled | ExamsPage.CorrectedShowsCancelledExactly |
| QuestionBankAPI/QuestionBank.Application/Services/QuestionImportService.cs:353 | a record naming one point twice gets two equal (question, point) rows. Adding the question throws on the second row, after the question and the first row are tracked. The record counts as failed, yet the next point creation, successful add or final `SaveChangesAsync` stores both | empty tables; a valid record whose 知识点 line names X twice, then a valid record naming no point | a failed record stores neither its question nor its rows; only the points it created stay | not executed | QuestionImportSave.PartlySavedRecordStored | QuestionImportSave.SaveAllOrNothing |
