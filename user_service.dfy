/** The user service: editing a user's contact details under the rule that
    no two users share an e-mail address, switching an account on and off,
    and the integer parts of the per-user and system statistics. */
module UserService {
  import opened Common
  import opened Domain
  import opened Store

  const MsgUserNotFound: string := "用户不存在"
  const MsgEmailInUse: string := "该邮箱已被其他用户使用"
  const MsgUserUpdated: string := "用户信息更新成功"
  const MsgUserActivated: string := "用户已激活"
  const MsgUserDeactivated: string := "用户已禁用"

  datatype UpdateUserRequest = UpdateUserRequest(id: Id, email: string, fullName: string, phone: Option<string>)

  datatype UserDto = UserDto(
    id: Id, username: string, email: string, fullName: string, role: UserRole, isActive: bool, createdAt: Time)

  /** The reply and the users table after the call. */
  datatype UserOutcome<T> = UserOutcome(result: Result<T>, users: seq<User>)

  function UserDtoOf(u: User): UserDto {
    UserDto(u.id, u.username, u.email, u.fullName, u.role, u.isActive, u.createdAt)
  }

  predicate IsVisibleUser(u: User, id: Id) {
    u.id == id && !u.isDeleted
  }

  /** The user exists and is not deleted. */
  predicate UserFound(users: seq<User>, id: Id) {
    exists j :: 0 <= j < |users| && IsVisibleUser(users[j], id)
  }

  function VisibleUserWithId(id: Id): User -> bool {
    (u: User) => IsVisibleUser(u, id)
  }

  /** GetByIdAsync / FindAsync, under the soft-delete filter. */
  function UserIndex(users: seq<User>, id: Id): (r: Option<nat>)
    ensures r.Some? ==> r.value < |users| && IsVisibleUser(users[r.value], id)
    ensures r.None? <==> !UserFound(users, id)
  {
    FirstIndex(users, VisibleUserWithId(id))
  }

  // ---------------------------------------------------------------------
  // The users table's keys
  // ---------------------------------------------------------------------

  predicate DifferentUserIds(a: User, b: User) {
    a.id != b.id
  }

  /** No two visible users hold the same address. */
  predicate VisibleEmailsDiffer(a: User, b: User) {
    !a.isDeleted && !b.isDeleted ==> a.email != b.email
  }

  predicate UserTablesValid(users: seq<User>) {
    Pairwise(users, DifferentUserIds) && Pairwise(users, VisibleEmailsDiffer)
  }

  /** Another visible user holds the address. */
  predicate EmailTaken(users: seq<User>, email: string, id: Id) {
    exists j :: 0 <= j < |users| && users[j].email == email && users[j].id != id && !users[j].isDeleted
  }

  // ---------------------------------------------------------------------
  // Update
  // ---------------------------------------------------------------------

  function WithContact(u: User, r: UpdateUserRequest, now: Time): User {
    u.(email := r.email, fullName := r.fullName, phone := r.phone, updatedAt := Some(now))
  }

  /** UpdateUserAsync: the address is checked only when it changes. */
  function UpdateUserSpec(users: seq<User>, r: UpdateUserRequest, now: Time): UserOutcome<UserDto> {
    match UserIndex(users, r.id)
    case None => UserOutcome(Failure(MsgUserNotFound), users)
    case Some(i) =>
      if users[i].email != r.email && EmailTaken(users, r.email, r.id) then UserOutcome(Failure(MsgEmailInUse), users)
      else
        var u := WithContact(users[i], r, now);
        UserOutcome(Success(UserDtoOf(u), MsgUserUpdated), users[i := u])
  }

  /** A missing user and an address held by another user are errors that
      change nothing; keeping one's own address is never an error. */
  lemma UpdateUserRejects(users: seq<User>, r: UpdateUserRequest, now: Time)
    ensures var o := UpdateUserSpec(users, r, now);
            o.result == Failure(MsgUserNotFound) <==> !UserFound(users, r.id)
    ensures var o := UpdateUserSpec(users, r, now);
            o.result == Failure(MsgEmailInUse) <==>
              exists i :: 0 <= i < |users| && IsVisibleUser(users[i], r.id) && i == UserIndex(users, r.id).value
                          && users[i].email != r.email && EmailTaken(users, r.email, r.id)
    ensures var o := UpdateUserSpec(users, r, now);
            o.result.Failure? ==> o.users == users
    ensures var o := UpdateUserSpec(users, r, now);
            UserFound(users, r.id) && users[UserIndex(users, r.id).value].email == r.email ==> o.result.Success?
  {
    match UserIndex(users, r.id)
    case None =>
    case Some(i) =>
  }

  /** A successful update rewrites only the user's address, name, phone and
      update time: the user name, role, activity flag and every other row stay. */
  lemma UpdateUserChangesContactOnly(users: seq<User>, r: UpdateUserRequest, now: Time)
    requires UpdateUserSpec(users, r, now).result.Success?
    ensures var o := UpdateUserSpec(users, r, now);
            var i := UserIndex(users, r.id).value;
            && |o.users| == |users|
            && (forall j :: 0 <= j < |users| && j != i ==> o.users[j] == users[j])
            && o.users[i].email == r.email && o.users[i].fullName == r.fullName && o.users[i].phone == r.phone
            && o.users[i].updatedAt == Some(now)
            && o.users[i].id == users[i].id && o.users[i].username == users[i].username
            && o.users[i].role == users[i].role && o.users[i].isActive == users[i].isActive
            && o.users[i].lastLoginAt == users[i].lastLoginAt && o.users[i].createdAt == users[i].createdAt
            && !o.users[i].isDeleted
    ensures var o := UpdateUserSpec(users, r, now);
            o.result.data == UserDtoOf(o.users[UserIndex(users, r.id).value])
  {
  }

  /** Rewriting one row keeps the primary key when the id stays. */
  lemma SameIdKeepsUserIds(users: seq<User>, i: nat, u: User)
    requires i < |users| && u.id == users[i].id && Pairwise(users, DifferentUserIds)
    ensures Pairwise(users[i := u], DifferentUserIds)
  {
    assert forall j :: 0 <= j < |users| ==> users[i := u][j].id == users[j].id;
  }

  /** Rewriting one row with an address no other visible user holds keeps
      the addresses of visible users distinct. */
  lemma NewEmailKeepsEmails(users: seq<User>, i: nat, u: User)
    requires i < |users| && u.id == users[i].id && UserTablesValid(users)
    requires u.email == users[i].email || !EmailTaken(users, u.email, u.id)
    requires u.isDeleted == users[i].isDeleted
    ensures Pairwise(users[i := u], VisibleEmailsDiffer)
  {
    var s := users[i := u];
    forall a, b | 0 <= a < b < |s| ensures VisibleEmailsDiffer(s[a], s[b]) {
      if a == i && u.email != users[i].email {
        assert DifferentUserIds(users[a], users[b]);
      } else if b == i && u.email != users[i].email {
        assert DifferentUserIds(users[a], users[b]);
      } else {
        assert VisibleEmailsDiffer(users[a], users[b]);
      }
    }
  }

  /** Updates keep the ids and the visible users' addresses unique. */
  lemma UpdateUserKeepsTables(users: seq<User>, r: UpdateUserRequest, now: Time)
    requires UserTablesValid(users)
    ensures UserTablesValid(UpdateUserSpec(users, r, now).users)
  {
    match UserIndex(users, r.id)
    case None =>
    case Some(i) =>
      if !(users[i].email != r.email && EmailTaken(users, r.email, r.id)) {
        var u := WithContact(users[i], r, now);
        SameIdKeepsUserIds(users, i, u);
        NewEmailKeepsEmails(users, i, u);
      }
  }

  // ---------------------------------------------------------------------
  // Activate / deactivate
  // ---------------------------------------------------------------------

  /** ActivateUserAsync / DeactivateUserAsync of the user repository, with
      the service's reply. */
  function SetActiveSpec(users: seq<User>, id: Id, active: bool, now: Time): UserOutcome<bool> {
    match UserIndex(users, id)
    case None => UserOutcome(Failure(MsgUserNotFound), users)
    case Some(i) =>
      UserOutcome(Success(true, if active then MsgUserActivated else MsgUserDeactivated),
                  users[i := users[i].(isActive := active, updatedAt := Some(now))])
  }

  /** A missing user is an error with no change; otherwise exactly that
      user's flag and update time change. */
  lemma SetActiveReports(users: seq<User>, id: Id, active: bool, now: Time)
    ensures var o := SetActiveSpec(users, id, active, now);
            o.result == Failure(MsgUserNotFound) <==> !UserFound(users, id)
    ensures var o := SetActiveSpec(users, id, active, now);
            !UserFound(users, id) ==> o.users == users
    ensures var o := SetActiveSpec(users, id, active, now);
            UserFound(users, id) ==>
              var i := UserIndex(users, id).value;
              && o.result == Success(true, if active then MsgUserActivated else MsgUserDeactivated)
              && |o.users| == |users|
              && (forall j :: 0 <= j < |users| && j != i ==> o.users[j] == users[j])
              && o.users[i] == users[i].(isActive := active, updatedAt := Some(now))
  {
  }

  /** Switching twice the same way is switching once, at the later time. */
  lemma SetActiveIdempotent(users: seq<User>, id: Id, active: bool, t1: Time, t2: Time)
    ensures SetActiveSpec(SetActiveSpec(users, id, active, t1).users, id, active, t2).users
            == SetActiveSpec(users, id, active, t2).users
  {
    match UserIndex(users, id)
    case None =>
    case Some(i) =>
      var s := SetActiveSpec(users, id, active, t1).users;
      assert forall j :: 0 <= j < |users| ==> (IsVisibleUser(s[j], id) <==> IsVisibleUser(users[j], id));
      assert UserIndex(s, id) == Some(i) by {
        assert forall j :: 0 <= j < |users| ==> VisibleUserWithId(id)(s[j]) == VisibleUserWithId(id)(users[j]);
        FirstIndexAgree(users, s, VisibleUserWithId(id));
      }
  }

  /** Deactivating and then activating restores the row up to its update time. */
  lemma DeactivateThenActivate(users: seq<User>, id: Id, t1: Time, t2: Time)
    requires UserFound(users, id) && users[UserIndex(users, id).value].isActive
    ensures SetActiveSpec(SetActiveSpec(users, id, false, t1).users, id, true, t2).users
            == SetActiveSpec(users, id, true, t2).users
  {
    var i := UserIndex(users, id).value;
    var s := SetActiveSpec(users, id, false, t1).users;
    assert forall j :: 0 <= j < |users| ==> VisibleUserWithId(id)(s[j]) == VisibleUserWithId(id)(users[j]);
    FirstIndexAgree(users, s, VisibleUserWithId(id));
  }

  /** FirstIndex finds the same position in two lists the condition cannot tell apart. */
  lemma {:induction false} FirstIndexAgree<T>(a: seq<T>, b: seq<T>, p: T -> bool)
    requires |a| == |b| && forall j :: 0 <= j < |a| ==> p(a[j]) == p(b[j])
    ensures FirstIndex(a, p) == FirstIndex(b, p)
    decreases |a|
  {
    if a != [] {
      FirstIndexAgree(a[1..], b[1..], p);
    }
  }

  lemma SetActiveKeepsTables(users: seq<User>, id: Id, active: bool, now: Time)
    requires UserTablesValid(users)
    ensures UserTablesValid(SetActiveSpec(users, id, active, now).users)
  {
    match UserIndex(users, id)
    case None =>
    case Some(i) =>
      var u := users[i].(isActive := active, updatedAt := Some(now));
      SameIdKeepsUserIds(users, i, u);
      NewEmailKeepsEmails(users, i, u);
  }

  // ---------------------------------------------------------------------
  // Statistics of one user
  // ---------------------------------------------------------------------

  /** UserStatsDto without the floating-point averages. */
  datatype UserStats = UserStats(
    userId: Id, username: string, fullName: string,
    totalExamAttempts: nat, completedExams: nat, highestScore: Option<int>,
    totalQuestionsAnswered: nat, correctAnswers: nat,
    wrongQuestionCount: nat, favoriteQuestionCount: nat, noteCount: nat,
    lastLoginAt: Option<Time>, registeredAt: Time)

  function AttemptOf(userId: Id): ExamAttempt -> bool {
    (a: ExamAttempt) => a.userId == userId && !a.isDeleted
  }

  function IsSubmittedAttempt(): ExamAttempt -> bool {
    (a: ExamAttempt) => a.isSubmitted
  }

  predicate Scored(a: ExamAttempt) {
    a.isGraded && a.totalScore.Some?
  }

  function IsScored(): ExamAttempt -> bool {
    (a: ExamAttempt) => Scored(a)
  }

  /** Max(e => e.TotalScore) over the scored attempts, or null when none is. */
  function HighestScore(attempts: seq<ExamAttempt>): (r: Option<int>)
    ensures r.None? <==> forall k :: 0 <= k < |attempts| ==> !Scored(attempts[k])
    ensures r.Some? ==> exists k :: 0 <= k < |attempts| && Scored(attempts[k]) && attempts[k].totalScore.value == r.value
    ensures r.Some? ==> forall k :: 0 <= k < |attempts| && Scored(attempts[k]) ==> attempts[k].totalScore.value <= r.value
    decreases |attempts|
  {
    if attempts == [] then None
    else
      var init, last := attempts[..|attempts| - 1], attempts[|attempts| - 1];
      assert forall k :: 0 <= k < |init| ==> init[k] == attempts[k];
      var best := HighestScore(init);
      if !Scored(last) then best
      else if best.None? || best.value < last.totalScore.value then Some(last.totalScore.value)
      else best
  }

  /** The attempt an answer belongs to, through the ExamAttempt navigation. */
  function AttemptOwner(attempts: seq<ExamAttempt>, attemptId: Id): Option<Id> {
    match FirstIndex(attempts, (a: ExamAttempt) => a.id == attemptId)
    case None => None
    case Some(k) => Some(attempts[k].userId)
  }

  function AnswerBy(attempts: seq<ExamAttempt>, userId: Id): Answer -> bool {
    (a: Answer) => !a.isDeleted && AttemptOwner(attempts, a.examAttemptId) == Some(userId)
  }

  function IsCorrectAnswer(): Answer -> bool {
    (a: Answer) => a.isCorrect == Some(true)
  }

  /** GetUserStatsAsync, except AverageScore and AccuracyRate. */
  function GetUserStats(users: seq<User>, attempts: seq<ExamAttempt>, answers: seq<Answer>,
                        wrongs: seq<WrongQuestion>, favorites: seq<FavoriteQuestion>, notes: seq<QuestionNote>,
                        userId: Id): Result<UserStats> {
    match UserIndex(users, userId)
    case None => Failure(MsgUserNotFound)
    case Some(i) =>
      var own := Filter(attempts, AttemptOf(userId));
      var completed := Filter(own, IsSubmittedAttempt());
      var answered := Filter(answers, AnswerBy(attempts, userId));
      Success(UserStats(
        users[i].id, users[i].username, users[i].fullName,
        |own|, |completed|, HighestScore(completed),
        |answered|, Count(answered, IsCorrectAnswer()),
        Count(wrongs, (w: WrongQuestion) => w.userId == userId && !w.isRemoved && !w.isDeleted),
        Count(favorites, (f: FavoriteQuestion) => f.userId == userId && !f.isDeleted),
        Count(notes, (n: QuestionNote) => n.userId == userId && !n.isDeleted),
        users[i].lastLoginAt, users[i].createdAt), "")
  }

  /** The counters: submitted attempts among the user's attempts, the best
      graded score among the submitted ones (null when none is graded with a
      score), and correct answers among the user's answers. */
  lemma UserStatsCounts(users: seq<User>, attempts: seq<ExamAttempt>, answers: seq<Answer>,
                        wrongs: seq<WrongQuestion>, favorites: seq<FavoriteQuestion>, notes: seq<QuestionNote>,
                        userId: Id)
    ensures var r := GetUserStats(users, attempts, answers, wrongs, favorites, notes, userId);
            r.Success? <==> UserFound(users, userId)
    ensures var r := GetUserStats(users, attempts, answers, wrongs, favorites, notes, userId);
            r.Success? ==> && r.data.userId == userId
                           && r.data.completedExams <= r.data.totalExamAttempts
                           && r.data.correctAnswers <= r.data.totalQuestionsAnswered
                           && r.data.completedExams == Count(attempts, (a: ExamAttempt) => a.userId == userId && !a.isDeleted && a.isSubmitted)
    ensures var r := GetUserStats(users, attempts, answers, wrongs, favorites, notes, userId);
            r.Success? ==> (r.data.highestScore.None? <==>
                              forall a :: a in attempts && a.userId == userId && !a.isDeleted && a.isSubmitted ==> !Scored(a))
    ensures var r := GetUserStats(users, attempts, answers, wrongs, favorites, notes, userId);
            r.Success? && r.data.highestScore.Some? ==>
              && (exists a :: a in attempts && a.userId == userId && !a.isDeleted && a.isSubmitted && Scored(a) && a.totalScore.value == r.data.highestScore.value)
              && (forall a :: a in attempts && a.userId == userId && !a.isDeleted && a.isSubmitted && Scored(a) ==> a.totalScore.value <= r.data.highestScore.value)
  {
    match UserIndex(users, userId)
    case None =>
    case Some(i) =>
      var own := Filter(attempts, AttemptOf(userId));
      var completed := Filter(own, IsSubmittedAttempt());
      var answered := Filter(answers, AnswerBy(attempts, userId));
      FilterNarrowTo(attempts, userId);
      assert forall a :: a in completed <==> a in attempts && a.userId == userId && !a.isDeleted && a.isSubmitted;
      var best := HighestScore(completed);
      if best.Some? {
        var k :| 0 <= k < |completed| && Scored(completed[k]) && completed[k].totalScore.value == best.value;
        assert completed[k] in completed;
      } else {
        forall a | a in attempts && a.userId == userId && !a.isDeleted && a.isSubmitted ensures !Scored(a) {
          assert a in completed;
        }
      }
  }

  /** Soft-removing a wrong-question record of the user, or restoring one,
    * moves the user's wrong-question count by one; removed records are never
    * counted. */
  lemma WrongCountFollowsRemoval(users: seq<User>, attempts: seq<ExamAttempt>, answers: seq<Answer>,
                                 wrongs: seq<WrongQuestion>, favorites: seq<FavoriteQuestion>, notes: seq<QuestionNote>,
                                 userId: Id, k: nat, removed: bool)
    requires UserFound(users, userId)
    requires k < |wrongs| && wrongs[k].userId == userId && !wrongs[k].isDeleted
    ensures var before := GetUserStats(users, attempts, answers, wrongs, favorites, notes, userId).data;
            var after := GetUserStats(users, attempts, answers, wrongs[k := wrongs[k].(isRemoved := removed)],
                                      favorites, notes, userId).data;
            after.wrongQuestionCount
              == before.wrongQuestionCount - (if wrongs[k].isRemoved then 0 else 1) + (if removed then 0 else 1)
  {
    CountAfterSet(wrongs, k, wrongs[k].(isRemoved := removed),
                  (w: WrongQuestion) => w.userId == userId && !w.isRemoved && !w.isDeleted);
  }

  lemma FilterNarrowTo(attempts: seq<ExamAttempt>, userId: Id)
    ensures |Filter(Filter(attempts, AttemptOf(userId)), IsSubmittedAttempt())|
            == Count(attempts, (a: ExamAttempt) => a.userId == userId && !a.isDeleted && a.isSubmitted)
  {
    var both := (a: ExamAttempt) => a.userId == userId && !a.isDeleted && a.isSubmitted;
    var own := Filter(attempts, AttemptOf(userId));
    FilterAgree(own, IsSubmittedAttempt(), both);
    FilterNarrow(attempts, AttemptOf(userId), both);
  }

  // ---------------------------------------------------------------------
  // System statistics
  // ---------------------------------------------------------------------

  /** SystemStatsDto without ServerTime. */
  datatype SystemStats = SystemStats(
    totalUsers: nat, studentCount: nat, teacherCount: nat, adminCount: nat, activeUsers: nat,
    totalQuestions: nat, questionsByType: map<string, nat>, questionsByDifficulty: map<string, nat>,
    totalExams: nat, activeExams: nat, totalExamAttempts: nat)

  function VisibleUser(): User -> bool {
    (u: User) => !u.isDeleted
  }

  function WithRole(role: UserRole): User -> bool {
    (u: User) => !u.isDeleted && u.role == role
  }

  function VisibleQuestion(): Question -> bool {
    (q: Question) => !q.isDeleted
  }

  function OfType(t: QuestionType): Question -> bool {
    (q: Question) => !q.isDeleted && q.qtype == t
  }

  function OfDifficulty(d: DifficultyLevel): Question -> bool {
    (q: Question) => !q.isDeleted && q.difficulty == d
  }

  /** Enum.ToString(): the member's name, or the number for a value that names no member. */
  function TypeName(t: QuestionType): string {
    match t
    case Unset => "0"
    case SingleChoice => "SingleChoice"
    case MultipleChoice => "MultipleChoice"
    case TrueFalse => "TrueFalse"
    case FillBlank => "FillBlank"
    case ShortAnswer => "ShortAnswer"
    case Material => "Material"
  }

  function DifficultyName(d: DifficultyLevel): string {
    match d
    case VeryEasy => "VeryEasy"
    case Easy => "Easy"
    case Medium => "Medium"
    case Hard => "Hard"
    case VeryHard => "VeryHard"
  }

  /** Distinct enum values have distinct names, so ToDictionary never meets a repeated key. */
  lemma NamesInjective(t1: QuestionType, t2: QuestionType, d1: DifficultyLevel, d2: DifficultyLevel)
    ensures TypeName(t1) == TypeName(t2) ==> t1 == t2
    ensures DifficultyName(d1) == DifficultyName(d2) ==> d1 == d2
  {
  }

  /** GroupBy(q => q.Type) ... ToDictionary(x => x.Type.ToString(), x => x.Count). */
  function QuestionsByType(questions: seq<Question>): (m: map<string, nat>)
    ensures forall t :: TypeName(t) in m <==> exists q :: q in questions && !q.isDeleted && q.qtype == t
    ensures forall t :: TypeName(t) in m ==> m[TypeName(t)] == Count(questions, OfType(t))
  {
    var present := set q | q in questions && !q.isDeleted :: q.qtype;
    forall t1, t2 | TypeName(t1) == TypeName(t2) ensures t1 == t2 {
      NamesInjective(t1, t2, Medium, Medium);
    }
    var m := map t | t in present :: TypeName(t) := Count(questions, OfType(t));
    assert forall t :: TypeName(t) in m <==> t in present;
    m
  }

  function QuestionsByDifficulty(questions: seq<Question>): (m: map<string, nat>)
    ensures forall d :: DifficultyName(d) in m <==> exists q :: q in questions && !q.isDeleted && q.difficulty == d
    ensures forall d :: DifficultyName(d) in m ==> m[DifficultyName(d)] == Count(questions, OfDifficulty(d))
  {
    var present := set q | q in questions && !q.isDeleted :: q.difficulty;
    forall d1, d2 | DifficultyName(d1) == DifficultyName(d2) ensures d1 == d2 {
      NamesInjective(Unset, Unset, d1, d2);
    }
    var m := map d | d in present :: DifficultyName(d) := Count(questions, OfDifficulty(d));
    assert forall d :: DifficultyName(d) in m <==> d in present;
    m
  }

  predicate IsActiveExam(e: Exam) {
    !e.isDeleted && (e.status == Published || e.status == InProgress)
  }

  /** GetSystemStatsAsync, every counter under the soft-delete filter. */
  function GetSystemStats(users: seq<User>, questions: seq<Question>, exams: seq<Exam>, attempts: seq<ExamAttempt>): Result<SystemStats> {
    Success(SystemStats(
      Count(users, VisibleUser()),
      Count(users, WithRole(Student)), Count(users, WithRole(Teacher)), Count(users, WithRole(Admin)),
      Count(users, (u: User) => !u.isDeleted && u.isActive),
      Count(questions, VisibleQuestion()), QuestionsByType(questions), QuestionsByDifficulty(questions),
      Count(exams, (e: Exam) => !e.isDeleted),
      Count(exams, (e: Exam) => IsActiveExam(e)),
      Count(attempts, (a: ExamAttempt) => !a.isDeleted)), "")
  }

  /** Changing one exam's status moves the active-exam counter exactly when the
    * exam enters or leaves Published/InProgress. */
  lemma ActiveExamsFollowStatus(users: seq<User>, questions: seq<Question>, exams: seq<Exam>,
                                attempts: seq<ExamAttempt>, k: nat, status: ExamStatus, now: Time)
    requires k < |exams|
    ensures var before := GetSystemStats(users, questions, exams, attempts).data;
            var e := exams[k].(status := status, updatedAt := Some(now));
            var after := GetSystemStats(users, questions, exams[k := e], attempts).data;
            after.activeExams == before.activeExams - (if IsActiveExam(exams[k]) then 1 else 0) + (if IsActiveExam(e) then 1 else 0)
            && after.totalExams == before.totalExams
  {
    var e := exams[k].(status := status, updatedAt := Some(now));
    CountAfterSet(exams, k, e, (x: Exam) => IsActiveExam(x));
    CountAfterSet(exams, k, e, (x: Exam) => !x.isDeleted);
  }

  /** Every user has exactly one of the three roles. */
  lemma OneRole(u: User)
    ensures (if VisibleUser()(u) then 1 else 0)
            == (if WithRole(Student)(u) then 1 else 0) + (if WithRole(Teacher)(u) then 1 else 0) + (if WithRole(Admin)(u) then 1 else 0)
  {
  }

  /** So the role counters add up to the total. */
  lemma {:induction false} RoleCountsAddUp(users: seq<User>)
    ensures Count(users, VisibleUser()) == Count(users, WithRole(Student)) + Count(users, WithRole(Teacher)) + Count(users, WithRole(Admin))
    decreases |users|
  {
    if users != [] {
      var init, u := users[..|users| - 1], users[|users| - 1];
      RoleCountsAddUp(init);
      assert users == init + [u];
      OneRole(u);
      CountAppendOne(init, u, VisibleUser());
      CountAppendOne(init, u, WithRole(Student));
      CountAppendOne(init, u, WithRole(Teacher));
      CountAppendOne(init, u, WithRole(Admin));
    }
  }

  /** The activity, role and listing counters cannot exceed the user total. */
  lemma SystemStatsBounds(users: seq<User>, questions: seq<Question>, exams: seq<Exam>, attempts: seq<ExamAttempt>)
    ensures var s := GetSystemStats(users, questions, exams, attempts).data;
            && s.totalUsers == s.studentCount + s.teacherCount + s.adminCount
            && s.activeUsers <= s.totalUsers
            && s.activeExams <= s.totalExams
  {
    RoleCountsAddUp(users);
    FilterNarrow(users, VisibleUser(), (u: User) => !u.isDeleted && u.isActive);
    FilterNarrow(exams, (e: Exam) => !e.isDeleted, (e: Exam) => IsActiveExam(e));
  }

  /** A visible question has exactly one type and one difficulty. */
  lemma OneTypeOneDifficulty(q: Question)
    ensures (if VisibleQuestion()(q) then 1 else 0)
            == (if OfType(Unset)(q) then 1 else 0) + (if OfType(SingleChoice)(q) then 1 else 0)
             + (if OfType(MultipleChoice)(q) then 1 else 0) + (if OfType(TrueFalse)(q) then 1 else 0)
             + (if OfType(FillBlank)(q) then 1 else 0) + (if OfType(ShortAnswer)(q) then 1 else 0)
             + (if OfType(Material)(q) then 1 else 0)
    ensures (if VisibleQuestion()(q) then 1 else 0)
            == (if OfDifficulty(VeryEasy)(q) then 1 else 0) + (if OfDifficulty(Easy)(q) then 1 else 0)
             + (if OfDifficulty(Medium)(q) then 1 else 0) + (if OfDifficulty(Hard)(q) then 1 else 0)
             + (if OfDifficulty(VeryHard)(q) then 1 else 0)
  {
  }

  /** The per-type counters add up to the question total. */
  lemma {:induction false} TypeCountsAddUp(questions: seq<Question>)
    ensures Count(questions, VisibleQuestion())
            == Count(questions, OfType(Unset)) + Count(questions, OfType(SingleChoice)) + Count(questions, OfType(MultipleChoice))
             + Count(questions, OfType(TrueFalse)) + Count(questions, OfType(FillBlank)) + Count(questions, OfType(ShortAnswer))
             + Count(questions, OfType(Material))
    decreases |questions|
  {
    if questions != [] {
      var init, q := questions[..|questions| - 1], questions[|questions| - 1];
      TypeCountsAddUp(init);
      assert questions == init + [q];
      OneTypeOneDifficulty(q);
      CountAppendOne(init, q, VisibleQuestion());
      CountAppendOne(init, q, OfType(Unset));
      CountAppendOne(init, q, OfType(SingleChoice));
      CountAppendOne(init, q, OfType(MultipleChoice));
      CountAppendOne(init, q, OfType(TrueFalse));
      CountAppendOne(init, q, OfType(FillBlank));
      CountAppendOne(init, q, OfType(ShortAnswer));
      CountAppendOne(init, q, OfType(Material));
    }
  }

  /** The per-difficulty counters add up to the question total. */
  lemma {:induction false} DifficultyCountsAddUp(questions: seq<Question>)
    ensures Count(questions, VisibleQuestion())
            == Count(questions, OfDifficulty(VeryEasy)) + Count(questions, OfDifficulty(Easy)) + Count(questions, OfDifficulty(Medium))
             + Count(questions, OfDifficulty(Hard)) + Count(questions, OfDifficulty(VeryHard))
    decreases |questions|
  {
    if questions != [] {
      var init, q := questions[..|questions| - 1], questions[|questions| - 1];
      DifficultyCountsAddUp(init);
      assert questions == init + [q];
      OneTypeOneDifficulty(q);
      CountAppendOne(init, q, VisibleQuestion());
      CountAppendOne(init, q, OfDifficulty(VeryEasy));
      CountAppendOne(init, q, OfDifficulty(Easy));
      CountAppendOne(init, q, OfDifficulty(Medium));
      CountAppendOne(init, q, OfDifficulty(Hard));
      CountAppendOne(init, q, OfDifficulty(VeryHard));
    }
  }

  // ---------------------------------------------------------------------
  // The service methods
  // ---------------------------------------------------------------------

  method UpdateUser(db: Database, r: UpdateUserRequest, now: Time) returns (result: Result<UserDto>)
    modifies db`users
    ensures var o := UpdateUserSpec(old(db.users), r, now);
            result == o.result && db.users == o.users
  {
    var index := UserIndex(db.users, r.id);
    if index.None? {
      return Failure(MsgUserNotFound);
    }
    var i := index.value;
    if db.users[i].email != r.email {
      var taken := EmailTaken(db.users, r.email, r.id);
      if taken {
        return Failure(MsgEmailInUse);
      }
    }
    var u := WithContact(db.users[i], r, now);
    db.users := db.users[i := u];
    result := Success(UserDtoOf(u), MsgUserUpdated);
  }

  method ActivateUser(db: Database, id: Id, now: Time) returns (result: Result<bool>)
    modifies db`users
    ensures var o := SetActiveSpec(old(db.users), id, true, now);
            result == o.result && db.users == o.users
  {
    var index := UserIndex(db.users, id);
    if index.None? {
      return Failure(MsgUserNotFound);
    }
    var i := index.value;
    db.users := db.users[i := db.users[i].(isActive := true, updatedAt := Some(now))];
    result := Success(true, MsgUserActivated);
  }

  method DeactivateUser(db: Database, id: Id, now: Time) returns (result: Result<bool>)
    modifies db`users
    ensures var o := SetActiveSpec(old(db.users), id, false, now);
            result == o.result && db.users == o.users
  {
    var index := UserIndex(db.users, id);
    if index.None? {
      return Failure(MsgUserNotFound);
    }
    var i := index.value;
    db.users := db.users[i := db.users[i].(isActive := false, updatedAt := Some(now))];
    result := Success(true, MsgUserDeactivated);
  }
}
