/** The question service: looking questions up, the conjunctive search with
    paging, creating and editing a question together with its set of
    knowledge-point links, and soft deletion. */
module QuestionService {
  import opened Common
  import opened Domain
  import opened Store

  const MsgQuestionNotFound: string := "题目不存在"
  const MsgQuestionCreated: string := "题目创建成功"
  const MsgQuestionUpdated: string := "题目更新成功"
  const MsgQuestionDeleted: string := "题目删除成功"

  /** QuestionSearchDto; absent filters are None. */
  datatype QuestionSearch = QuestionSearch(
    keyword: Option<string>, qtype: Option<QuestionType>, difficulty: Option<DifficultyLevel>,
    knowledgePointId: Option<Id>, chapter: Option<string>, status: Option<QuestionStatus>,
    pageNumber: int, pageSize: int)

  datatype CreateQuestionRequest = CreateQuestionRequest(
    qtype: QuestionType, content: string, options: Option<string>, correctAnswer: string,
    explanation: Option<string>, difficulty: DifficultyLevel, score: int, chapter: Option<string>,
    knowledgePointIds: seq<Id>)

  datatype UpdateQuestionRequest = UpdateQuestionRequest(
    id: Id, qtype: QuestionType, content: string, options: Option<string>, correctAnswer: string,
    explanation: Option<string>, difficulty: DifficultyLevel, score: int, chapter: Option<string>,
    status: QuestionStatus, knowledgePointIds: seq<Id>)

  /** QuestionDto, with each knowledge point given by its id. */
  datatype QuestionDto = QuestionDto(
    id: Id, qtype: QuestionType, content: string, options: Option<string>, correctAnswer: string,
    explanation: Option<string>, difficulty: DifficultyLevel, score: int, chapter: Option<string>,
    status: QuestionStatus, knowledgePointIds: seq<Id>, createdAt: Time)

  /** What a write leaves behind: the reply (or the exception it throws),
      and the question and link tables. */
  datatype QuestionOutcome<T> = QuestionOutcome(
    reply: Outcome<Result<T>>, questions: seq<Question>, links: seq<QuestionKnowledgePoint>)

  // ---------------------------------------------------------------------
  // A question and its links
  // ---------------------------------------------------------------------

  function VisibleWithId(id: Id): Question -> bool {
    (q: Question) => IsVisibleQuestion(q, id)
  }

  /** FirstOrDefaultAsync(q => q.Id == id) under the soft-delete filter. */
  function QuestionIndex(questions: seq<Question>, id: Id): (r: Option<nat>)
    ensures r.Some? ==> r.value < |questions| && IsVisibleQuestion(questions[r.value], id)
    ensures r.None? <==> !QuestionFound(questions, id)
  {
    FirstIndex(questions, VisibleWithId(id))
  }

  function OfQuestion(questionId: Id): QuestionKnowledgePoint -> bool {
    (l: QuestionKnowledgePoint) => l.questionId == questionId
  }

  function NotOfQuestion(questionId: Id): QuestionKnowledgePoint -> bool {
    (l: QuestionKnowledgePoint) => l.questionId != questionId
  }

  /** The question's QuestionKnowledgePoints navigation, as point ids. */
  function PointIdsOf(links: seq<QuestionKnowledgePoint>, questionId: Id): (r: seq<Id>)
    ensures forall kp :: kp in r <==> QuestionKnowledgePoint(questionId, kp) in links
  {
    var own := Filter(links, OfQuestion(questionId));
    var r := seq(|own|, k requires 0 <= k < |own| => own[k].knowledgePointId);
    forall kp ensures kp in r <==> QuestionKnowledgePoint(questionId, kp) in links {
      if QuestionKnowledgePoint(questionId, kp) in links {
        assert QuestionKnowledgePoint(questionId, kp) in own;
        var k :| 0 <= k < |own| && own[k] == QuestionKnowledgePoint(questionId, kp);
        assert r[k] == kp;
      }
      if kp in r {
        var k :| 0 <= k < |r| && r[k] == kp;
        assert own[k] in own;
      }
    }
    r
  }

  /** MapToQuestionDto. */
  function DtoOf(q: Question, links: seq<QuestionKnowledgePoint>): QuestionDto {
    QuestionDto(q.id, q.qtype, q.content, q.options, q.correctAnswer, q.explanation,
                q.difficulty, q.score, q.chapter, q.status, PointIdsOf(links, q.id), q.createdAt)
  }

  function DtosOf(s: seq<Question>, links: seq<QuestionKnowledgePoint>): (r: seq<QuestionDto>)
    ensures |r| == |s| && forall k :: 0 <= k < |s| ==> r[k] == DtoOf(s[k], links)
  {
    seq(|s|, k requires 0 <= k < |s| => DtoOf(s[k], links))
  }

  /** GetQuestionByIdAsync. */
  function GetQuestionById(questions: seq<Question>, links: seq<QuestionKnowledgePoint>, id: Id): Result<QuestionDto> {
    match QuestionIndex(questions, id)
    case None => Failure(MsgQuestionNotFound)
    case Some(i) => Success(DtoOf(questions[i], links), "")
  }

  /** A visible question is reported with its fields and exactly its linked
      points; any other id is an error. */
  lemma GetQuestionByIdReports(questions: seq<Question>, links: seq<QuestionKnowledgePoint>, id: Id)
    ensures GetQuestionById(questions, links, id).Success? <==> QuestionFound(questions, id)
    ensures GetQuestionById(questions, links, id) == Failure(MsgQuestionNotFound) <==> !QuestionFound(questions, id)
    ensures var r := GetQuestionById(questions, links, id);
            r.Success? ==> r.data.id == id && exists j :: 0 <= j < |questions| && IsVisibleQuestion(questions[j], id) && r.data == DtoOf(questions[j], links)
    ensures var r := GetQuestionById(questions, links, id);
            r.Success? ==> forall kp :: kp in r.data.knowledgePointIds <==> QuestionKnowledgePoint(id, kp) in links
  {
    match QuestionIndex(questions, id)
    case None =>
    case Some(i) =>
  }

  // ---------------------------------------------------------------------
  // Search
  // ---------------------------------------------------------------------

  /** A keyword that is absent or blank does not filter; otherwise it must
      occur in the content or in a present explanation. */
  predicate KeywordMatches(q: Question, keyword: Option<string>) {
    IsNullOrBlank(keyword)
    || Contains(q.content, keyword.value)
    || (q.explanation.Some? && Contains(q.explanation.value, keyword.value))
  }

  /** A chapter that is absent or blank does not filter; otherwise it must be equal. */
  predicate ChapterMatches(q: Question, chapter: Option<string>) {
    IsNullOrBlank(chapter) || q.chapter == chapter
  }

  /** Every supplied filter holds, on a question that is not deleted. */
  predicate SearchMatch(links: seq<QuestionKnowledgePoint>, s: QuestionSearch, q: Question) {
    && !q.isDeleted
    && KeywordMatches(q, s.keyword)
    && (s.qtype.None? || q.qtype == s.qtype.value)
    && (s.difficulty.None? || q.difficulty == s.difficulty.value)
    && (s.knowledgePointId.None? || QuestionKnowledgePoint(q.id, s.knowledgePointId.value) in links)
    && ChapterMatches(q, s.chapter)
    && (s.status.None? || q.status == s.status.value)
  }

  function Matching(links: seq<QuestionKnowledgePoint>, s: QuestionSearch): Question -> bool {
    (q: Question) => SearchMatch(links, s, q)
  }

  predicate CreatedDesc(a: Question, b: Question) {
    a.createdAt >= b.createdAt
  }

  /** The whole filtered query, newest first. */
  function SearchList(questions: seq<Question>, links: seq<QuestionKnowledgePoint>, s: QuestionSearch): (r: seq<Question>)
    ensures forall q :: multiset(r)[q] == if SearchMatch(links, s, q) then multiset(questions)[q] else 0
    ensures |r| == Count(questions, Matching(links, s))
    ensures SortedBy(r, CreatedDesc)
  {
    var found := Filter(questions, Matching(links, s));
    forall q ensures multiset(found)[q] == if SearchMatch(links, s, q) then multiset(questions)[q] else 0 {
      FilterMultiset(questions, Matching(links, s), q);
    }
    assert TotalPreorder(CreatedDesc);
    SortBy(found, CreatedDesc)
  }

  /** The answer of SearchQuestionsAsync when its query runs: the count of
      all matches, then one page. */
  function SearchPage(questions: seq<Question>, links: seq<QuestionKnowledgePoint>, s: QuestionSearch): (r: Result<PagedResponse<QuestionDto>>)
    ensures r.Success? && r.data.pageNumber == s.pageNumber && r.data.pageSize == s.pageSize
    ensures r.data.totalCount == Count(questions, Matching(links, s))
    ensures |r.data.items| <= r.data.totalCount && (s.pageSize >= 0 ==> |r.data.items| <= s.pageSize)
  {
    var all := SearchList(questions, links, s);
    var page := Page(all, s.pageNumber, s.pageSize);
    Success(PagedResponse(DtosOf(page, links), |all|, s.pageNumber, s.pageSize), "")
  }

  /** SearchQuestionsAsync: PostgreSQL refuses a negative offset or limit
      and the exception reaches the caller; otherwise the page answer. */
  function SearchQuestions(questions: seq<Question>, links: seq<QuestionKnowledgePoint>, s: QuestionSearch): (r: Outcome<Result<PagedResponse<QuestionDto>>>)
    ensures r.Thrown? <==> PagingError(s.pageNumber, s.pageSize).Some?
    ensures r.Thrown? ==> r.message == PagingError(s.pageNumber, s.pageSize).value
    ensures r.Done? ==> r.value == SearchPage(questions, links, s)
  {
    match PagingError(s.pageNumber, s.pageSize)
    case Some(m) => Thrown(m)
    case None => Done(SearchPage(questions, links, s))
  }

  /** Every listed question passes the search. */
  lemma SearchListMembers(questions: seq<Question>, links: seq<QuestionKnowledgePoint>, s: QuestionSearch)
    ensures forall q :: q in SearchList(questions, links, s) ==> q in questions && SearchMatch(links, s, q)
  {
    var all := SearchList(questions, links, s);
    forall q | q in all ensures q in questions && SearchMatch(links, s, q) {
      assert multiset(all)[q] > 0;
    }
  }

  /** Each item of a page passes every supplied filter, read off the item
      itself, and the page is ordered by creation time, newest first. */
  lemma SearchResultsPassFilters(questions: seq<Question>, links: seq<QuestionKnowledgePoint>, s: QuestionSearch)
    ensures var items := SearchPage(questions, links, s).data.items;
            forall k :: 0 <= k < |items| ==> ItemPasses(questions, s, items[k])
    ensures var items := SearchPage(questions, links, s).data.items;
            forall i, j :: 0 <= i < j < |items| ==> items[i].createdAt >= items[j].createdAt
  {
    var all := SearchList(questions, links, s);
    var page := Page(all, s.pageNumber, s.pageSize);
    PageOfList(all, s.pageNumber, s.pageSize, CreatedDesc);
    SearchListMembers(questions, links, s);
    PageItemsPass(questions, links, s, page);
  }

  /** The item is the DTO of a visible question, and every supplied filter
      holds of the item's own fields. */
  ghost predicate ItemPasses(questions: seq<Question>, s: QuestionSearch, d: QuestionDto) {
    && (exists q :: q in questions && !q.isDeleted && q.id == d.id && q.createdAt == d.createdAt)
    && (!IsNullOrBlank(s.keyword) ==>
          Contains(d.content, s.keyword.value) || (d.explanation.Some? && Contains(d.explanation.value, s.keyword.value)))
    && (s.qtype.Some? ==> d.qtype == s.qtype.value)
    && (s.difficulty.Some? ==> d.difficulty == s.difficulty.value)
    && (s.knowledgePointId.Some? ==> s.knowledgePointId.value in d.knowledgePointIds)
    && (!IsNullOrBlank(s.chapter) ==> d.chapter == s.chapter)
    && (s.status.Some? ==> d.status == s.status.value)
  }

  lemma PageItemsPass(questions: seq<Question>, links: seq<QuestionKnowledgePoint>, s: QuestionSearch, page: seq<Question>)
    requires forall q :: q in page ==> q in questions && SearchMatch(links, s, q)
    requires SortedBy(page, CreatedDesc)
    ensures var items := DtosOf(page, links);
            forall k :: 0 <= k < |items| ==> ItemPasses(questions, s, items[k])
    ensures var items := DtosOf(page, links);
            forall i, j :: 0 <= i < j < |items| ==> items[i].createdAt >= items[j].createdAt
  {
    var items := DtosOf(page, links);
    forall k | 0 <= k < |items| ensures ItemPasses(questions, s, items[k]) {
      var q := page[k];
      assert q in page;
      assert q in questions && !q.isDeleted && q.id == items[k].id && q.createdAt == items[k].createdAt;
    }
    assert forall i, j :: 0 <= i < j < |page| ==> CreatedDesc(page[i], page[j]);
  }

  /** Paging takes the list's items in order: item i of page p is match
      (p - 1) * size + i of the whole ordered list. */
  lemma SearchPageIsSlice(questions: seq<Question>, links: seq<QuestionKnowledgePoint>, s: QuestionSearch, start: nat, i: nat)
    requires s.pageNumber >= 1 && s.pageSize >= 1 && i < s.pageSize
    requires start == (s.pageNumber - 1) * s.pageSize
    requires start + i < Count(questions, Matching(links, s))
    ensures var items := SearchPage(questions, links, s).data.items;
            i < |items| && items[i] == DtoOf(SearchList(questions, links, s)[start + i], links)
  {
    var all := SearchList(questions, links, s);
    var page := Page(all, s.pageNumber, s.pageSize);
    PageItem(all, s.pageNumber, s.pageSize, i);
    assert SearchPage(questions, links, s).data.items == DtosOf(page, links);
  }

  /** A page large enough for every match lists every matching question. */
  lemma SearchFindsEveryMatch(questions: seq<Question>, links: seq<QuestionKnowledgePoint>, s: QuestionSearch, q: Question)
    requires s.pageNumber == 1 && s.pageSize >= Count(questions, Matching(links, s))
    requires q in questions && SearchMatch(links, s, q)
    ensures DtoOf(q, links) in SearchPage(questions, links, s).data.items
  {
    var all := SearchList(questions, links, s);
    assert multiset(all)[q] > 0;
    var k :| 0 <= k < |all| && all[k] == q;
    assert Page(all, 1, s.pageSize) == all;
  }

  /** A blank keyword and a blank chapter search exactly like absent ones. */
  lemma BlankFiltersIgnored(questions: seq<Question>, links: seq<QuestionKnowledgePoint>, s: QuestionSearch)
    requires IsNullOrBlank(s.keyword) && IsNullOrBlank(s.chapter)
    ensures SearchPage(questions, links, s) == SearchPage(questions, links, s.(keyword := None, chapter := None))
  {
    var s' := s.(keyword := None, chapter := None);
    FilterAgree(questions, Matching(links, s), Matching(links, s'));
  }

  /** With no filter supplied the search lists every visible question. */
  lemma UnfilteredSearchCountsVisible(questions: seq<Question>, links: seq<QuestionKnowledgePoint>, s: QuestionSearch)
    requires s.keyword.None? && s.qtype.None? && s.difficulty.None?
    requires s.knowledgePointId.None? && s.chapter.None? && s.status.None?
    ensures SearchPage(questions, links, s).data.totalCount == Count(questions, (q: Question) => !q.isDeleted)
  {
    FilterAgree(questions, Matching(links, s), (q: Question) => !q.isDeleted);
  }

  // ---------------------------------------------------------------------
  // Link rows
  // ---------------------------------------------------------------------

  /** KnowledgePointIds.Select(kpId => new QuestionKnowledgePoint { ... }). */
  function LinksFor(questionId: Id, pointIds: seq<Id>): (r: seq<QuestionKnowledgePoint>)
    ensures |r| == |pointIds| && forall k :: 0 <= k < |r| ==> r[k] == QuestionKnowledgePoint(questionId, pointIds[k])
  {
    seq(|pointIds|, k requires 0 <= k < |pointIds| => QuestionKnowledgePoint(questionId, pointIds[k]))
  }

  /** Why adding the rows for these points to the remaining rows throws:
      tracking two new rows with one key, a key that a stored row already
      holds, or a point id that names no knowledge point. */
  function LinkFailure(kps: seq<KnowledgePoint>, remaining: seq<QuestionKnowledgePoint>,
                       questionId: Id, pointIds: seq<Id>): (r: Option<string>)
    ensures r.None? <==> && Distinct(pointIds)
                         && (forall k :: 0 <= k < |pointIds| ==> QuestionKnowledgePoint(questionId, pointIds[k]) !in remaining)
                         && (forall k :: 0 <= k < |pointIds| ==> pointIds[k] in KnowledgePointIds(kps))
  {
    if !Distinct(pointIds) then Some(MsgDuplicateLink)
    else if exists k :: 0 <= k < |pointIds| && QuestionKnowledgePoint(questionId, pointIds[k]) in remaining then Some(MsgDuplicateLink)
    else if exists k :: 0 <= k < |pointIds| && pointIds[k] !in KnowledgePointIds(kps) then Some(MsgMissingReference)
    else None
  }

  // ---------------------------------------------------------------------
  // Create
  // ---------------------------------------------------------------------

  function NewQuestionFor(questions: seq<Question>, r: CreateQuestionRequest, creatorId: Id, now: Time): Question {
    Question(FreshId(QuestionIds(questions)), r.qtype, r.content, r.options, r.correctAnswer, r.explanation,
             r.difficulty, r.score, r.chapter, Enabled, Some(creatorId), now, Some(now), false)
  }

  /** CreateQuestionAsync: the question is saved first; the links, if any
      points are given, are saved by a second SaveChanges, which can throw. */
  function CreateQuestionSpec(questions: seq<Question>, kps: seq<KnowledgePoint>, links: seq<QuestionKnowledgePoint>,
                              r: CreateQuestionRequest, creatorId: Id, now: Time): QuestionOutcome<QuestionDto> {
    var q := NewQuestionFor(questions, r, creatorId, now);
    if r.knowledgePointIds == [] then
      QuestionOutcome(Done(Success(DtoOf(q, links), MsgQuestionCreated)), questions + [q], links)
    else match LinkFailure(kps, links, q.id, r.knowledgePointIds)
      case Some(m) => QuestionOutcome(Thrown(m), questions + [q], links)
      case None =>
        var links' := links + LinksFor(q.id, r.knowledgePointIds);
        QuestionOutcome(Done(Success(DtoOf(q, links'), MsgQuestionCreated)), questions + [q], links')
  }

  /** The new question is stored Enabled, with the given creator and the
      requested fields and a fresh id; it is linked to exactly the requested
      points, or the call throws after the question is saved and links none. */
  lemma CreateQuestionStores(questions: seq<Question>, kps: seq<KnowledgePoint>, links: seq<QuestionKnowledgePoint>,
                             r: CreateQuestionRequest, creatorId: Id, now: Time)
    ensures var o := CreateQuestionSpec(questions, kps, links, r, creatorId, now);
            && |o.questions| == |questions| + 1 && o.questions[..|questions|] == questions
            && QuestionStoredFrom(o.questions[|questions|], r, creatorId, now)
            && o.questions[|questions|].id !in QuestionIds(questions)
    ensures var o := CreateQuestionSpec(questions, kps, links, r, creatorId, now);
            o.reply.Thrown? <==> LinkFailure(kps, links, FreshId(QuestionIds(questions)), r.knowledgePointIds).Some?
    ensures var o := CreateQuestionSpec(questions, kps, links, r, creatorId, now);
            o.reply.Thrown? ==> o.links == links
    ensures var o := CreateQuestionSpec(questions, kps, links, r, creatorId, now);
            o.reply.Done? ==> && o.reply.value == Success(DtoOf(o.questions[|questions|], o.links), MsgQuestionCreated)
                              && o.links == links + LinksFor(o.questions[|questions|].id, r.knowledgePointIds)
  {
    var o := CreateQuestionSpec(questions, kps, links, r, creatorId, now);
    var q := NewQuestionFor(questions, r, creatorId, now);
    assert o.questions[|questions|] == q;
    assert o.questions[..|questions|] == questions;
    assert forall k :: 0 <= k < |QuestionIds(questions)| ==> QuestionIds(questions)[k] != q.id;
  }

  /** The stored question carries the request's fields, Enabled, the creator,
      and fresh timestamps. */
  predicate QuestionStoredFrom(q: Question, r: CreateQuestionRequest, creatorId: Id, now: Time) {
    && q.qtype == r.qtype && q.content == r.content && q.options == r.options
    && q.correctAnswer == r.correctAnswer && q.explanation == r.explanation
    && q.difficulty == r.difficulty && q.score == r.score && q.chapter == r.chapter
    && q.status == Enabled && q.creatorId == Some(creatorId)
    && q.createdAt == now && q.updatedAt == Some(now) && !q.isDeleted
  }

  // ---------------------------------------------------------------------
  // Update
  // ---------------------------------------------------------------------

  /** The assignments of UpdateQuestionAsync. */
  function Overwrite(q: Question, r: UpdateQuestionRequest, now: Time): Question {
    q.(qtype := r.qtype, content := r.content, options := r.options, correctAnswer := r.correctAnswer,
       explanation := r.explanation, difficulty := r.difficulty, score := r.score, chapter := r.chapter,
       status := r.status, updatedAt := Some(now))
  }

  /** UpdateQuestionAsync: one SaveChanges writes the fields, removes the
      question's links and adds the requested ones, or throws and writes nothing. */
  function UpdateQuestionSpec(questions: seq<Question>, kps: seq<KnowledgePoint>, links: seq<QuestionKnowledgePoint>,
                              r: UpdateQuestionRequest, now: Time): QuestionOutcome<QuestionDto> {
    match QuestionIndex(questions, r.id)
    case None => QuestionOutcome(Done(Failure(MsgQuestionNotFound)), questions, links)
    case Some(i) =>
      var q := Overwrite(questions[i], r, now);
      var others := Filter(links, NotOfQuestion(r.id));
      match LinkFailure(kps, others, r.id, r.knowledgePointIds)
      case Some(m) => QuestionOutcome(Thrown(m), questions, links)
      case None =>
        var links' := others + LinksFor(r.id, r.knowledgePointIds);
        QuestionOutcome(Done(Success(DtoOf(q, links'), MsgQuestionUpdated)), questions[i := q], links')
  }

  /** A missing id is an error, and a throwing save changes nothing. */
  lemma UpdateQuestionRejects(questions: seq<Question>, kps: seq<KnowledgePoint>, links: seq<QuestionKnowledgePoint>,
                              r: UpdateQuestionRequest, now: Time)
    ensures var o := UpdateQuestionSpec(questions, kps, links, r, now);
            o.reply == Done(Failure(MsgQuestionNotFound)) <==> !QuestionFound(questions, r.id)
    ensures var o := UpdateQuestionSpec(questions, kps, links, r, now);
            o.reply.Thrown? <==> QuestionFound(questions, r.id) && LinkFailure(kps, Filter(links, NotOfQuestion(r.id)), r.id, r.knowledgePointIds).Some?
    ensures var o := UpdateQuestionSpec(questions, kps, links, r, now);
            !o.reply.Done? || !o.reply.value.Success? ==> o.questions == questions && o.links == links
  {
  }

  /** A successful update overwrites every editable field of that one row
      and keeps its id, creator, creation time and deletion flag; the
      question's links become exactly the requested points while every
      other question's links stay. */
  lemma UpdateQuestionReplaces(questions: seq<Question>, kps: seq<KnowledgePoint>, links: seq<QuestionKnowledgePoint>,
                               r: UpdateQuestionRequest, now: Time, kp: Id, other: QuestionKnowledgePoint)
    requires UpdateQuestionSpec(questions, kps, links, r, now).reply.Done?
    requires UpdateQuestionSpec(questions, kps, links, r, now).reply.value.Success?
    requires other.questionId != r.id
    ensures var o := UpdateQuestionSpec(questions, kps, links, r, now);
            var i := QuestionIndex(questions, r.id).value;
            && |o.questions| == |questions|
            && (forall j :: 0 <= j < |questions| && j != i ==> o.questions[j] == questions[j])
            && UpdatedFrom(questions[i], o.questions[i], r, now)
    ensures var o := UpdateQuestionSpec(questions, kps, links, r, now);
            QuestionKnowledgePoint(r.id, kp) in o.links <==> kp in r.knowledgePointIds
    ensures var o := UpdateQuestionSpec(questions, kps, links, r, now);
            other in o.links <==> other in links
    ensures var o := UpdateQuestionSpec(questions, kps, links, r, now);
            kp in o.reply.value.data.knowledgePointIds <==> kp in r.knowledgePointIds
  {
    var o := UpdateQuestionSpec(questions, kps, links, r, now);
    var i := QuestionIndex(questions, r.id).value;
    var others := Filter(links, NotOfQuestion(r.id));
    var added := LinksFor(r.id, r.knowledgePointIds);
    assert o.links == others + added;
    if kp in r.knowledgePointIds {
      var k :| 0 <= k < |r.knowledgePointIds| && r.knowledgePointIds[k] == kp;
      assert added[k] == QuestionKnowledgePoint(r.id, kp);
    }
  }

  predicate UpdatedFrom(q: Question, q': Question, r: UpdateQuestionRequest, now: Time) {
    && q'.qtype == r.qtype && q'.content == r.content && q'.options == r.options
    && q'.correctAnswer == r.correctAnswer && q'.explanation == r.explanation
    && q'.difficulty == r.difficulty && q'.score == r.score && q'.chapter == r.chapter
    && q'.status == r.status && q'.updatedAt == Some(now)
    && q'.id == q.id && q'.creatorId == q.creatorId && q'.createdAt == q.createdAt && q'.isDeleted == q.isDeleted
  }

  // ---------------------------------------------------------------------
  // Delete
  // ---------------------------------------------------------------------

  /** DeleteQuestionAsync: a soft delete through the repository, which saves. */
  function DeleteQuestionSpec(questions: seq<Question>, links: seq<QuestionKnowledgePoint>, id: Id, now: Time): QuestionOutcome<bool> {
    match QuestionIndex(questions, id)
    case None => QuestionOutcome(Done(Failure(MsgQuestionNotFound)), questions, links)
    case Some(i) =>
      QuestionOutcome(Done(Success(true, MsgQuestionDeleted)),
                      questions[i := questions[i].(isDeleted := true, updatedAt := Some(now))], links)
  }

  /** A missing id is an error and changes nothing; otherwise the row stays,
      flagged deleted, so that lookups no longer find it, and its links stay. */
  lemma DeleteQuestionIsSoft(questions: seq<Question>, links: seq<QuestionKnowledgePoint>, id: Id, now: Time)
    requires QuestionIdsUnique(questions)
    ensures var o := DeleteQuestionSpec(questions, links, id, now);
            o.reply == Done(Failure(MsgQuestionNotFound)) <==> !QuestionFound(questions, id)
    ensures var o := DeleteQuestionSpec(questions, links, id, now);
            o.links == links && |o.questions| == |questions| && QuestionIds(o.questions) == QuestionIds(questions)
    ensures var o := DeleteQuestionSpec(questions, links, id, now);
            QuestionFound(questions, id) ==> && o.reply == Done(Success(true, MsgQuestionDeleted))
                                              && !QuestionFound(o.questions, id)
    ensures var o := DeleteQuestionSpec(questions, links, id, now);
            forall j :: 0 <= j < |questions| && questions[j].id != id ==> o.questions[j] == questions[j]
  {
    var o := DeleteQuestionSpec(questions, links, id, now);
    match QuestionIndex(questions, id)
    case None =>
    case Some(i) =>
      assert QuestionIds(o.questions) == QuestionIds(questions);
      forall j | 0 <= j < |o.questions| ensures !IsVisibleQuestion(o.questions[j], id) {
        if j < i {
          assert DifferentIds(questions[j], questions[i]);
        } else if i < j {
          assert DifferentIds(questions[i], questions[j]);
        }
      }
  }

  // ---------------------------------------------------------------------
  // By knowledge point
  // ---------------------------------------------------------------------

  function LinkedTo(links: seq<QuestionKnowledgePoint>, pointId: Id): Question -> bool {
    (q: Question) => !q.isDeleted && QuestionKnowledgePoint(q.id, pointId) in links
  }

  /** GetQuestionsByKnowledgePointAsync. */
  function GetQuestionsByKnowledgePoint(questions: seq<Question>, links: seq<QuestionKnowledgePoint>, pointId: Id): Result<seq<QuestionDto>> {
    Success(DtosOf(Filter(questions, LinkedTo(links, pointId)), links), "")
  }

  /** Exactly the visible questions linked to the point are listed, each
      with the point among its own. */
  lemma ByKnowledgePointExactly(questions: seq<Question>, links: seq<QuestionKnowledgePoint>, pointId: Id, q: Question)
    ensures var items := GetQuestionsByKnowledgePoint(questions, links, pointId).data;
            forall k :: 0 <= k < |items| ==> pointId in items[k].knowledgePointIds
    ensures var items := GetQuestionsByKnowledgePoint(questions, links, pointId).data;
            q in questions && !q.isDeleted && QuestionKnowledgePoint(q.id, pointId) in links ==> DtoOf(q, links) in items
    ensures var items := GetQuestionsByKnowledgePoint(questions, links, pointId).data;
            |items| == Count(questions, LinkedTo(links, pointId))
  {
    var found := Filter(questions, LinkedTo(links, pointId));
    var items := DtosOf(found, links);
    forall k | 0 <= k < |items| ensures pointId in items[k].knowledgePointIds {
      assert found[k] in found;
    }
    if q in questions && !q.isDeleted && QuestionKnowledgePoint(q.id, pointId) in links {
      assert q in found;
      var k :| 0 <= k < |found| && found[k] == q;
      assert items[k] == DtoOf(q, links);
    }
  }

  // ---------------------------------------------------------------------
  // The tables' integrity
  // ---------------------------------------------------------------------

  predicate DifferentLinks(a: QuestionKnowledgePoint, b: QuestionKnowledgePoint) {
    a != b
  }

  /** The composite primary key (QuestionId, KnowledgePointId). */
  predicate PointLinksUnique(links: seq<QuestionKnowledgePoint>) {
    Pairwise(links, DifferentLinks)
  }

  /** The foreign keys of the join table. */
  predicate LinksReferenceRows(questions: seq<Question>, kps: seq<KnowledgePoint>, links: seq<QuestionKnowledgePoint>) {
    forall l :: l in links ==> l.questionId in QuestionIds(questions) && l.knowledgePointId in KnowledgePointIds(kps)
  }

  predicate QuestionTablesValid(questions: seq<Question>, kps: seq<KnowledgePoint>, links: seq<QuestionKnowledgePoint>) {
    QuestionIdsUnique(questions) && PointLinksUnique(links) && LinksReferenceRows(questions, kps, links)
  }

  lemma LinksForUnique(questionId: Id, pointIds: seq<Id>)
    requires Distinct(pointIds)
    ensures PointLinksUnique(LinksFor(questionId, pointIds))
  {
  }

  /** Adding rows that hold none of the remaining keys keeps the key unique. */
  lemma AddLinksKeepsKeys(remaining: seq<QuestionKnowledgePoint>, questionId: Id, pointIds: seq<Id>)
    requires PointLinksUnique(remaining) && Distinct(pointIds)
    requires forall k :: 0 <= k < |pointIds| ==> QuestionKnowledgePoint(questionId, pointIds[k]) !in remaining
    ensures PointLinksUnique(remaining + LinksFor(questionId, pointIds))
  {
    var added := LinksFor(questionId, pointIds);
    LinksForUnique(questionId, pointIds);
    forall i, j | 0 <= i < |remaining| && 0 <= j < |added| ensures DifferentLinks(remaining[i], added[j]) {
      assert remaining[i] in remaining;
    }
    PairwiseAppend(remaining, added, DifferentLinks);
  }

  lemma QuestionIdsSnoc(questions: seq<Question>, q: Question)
    ensures QuestionIds(questions + [q]) == QuestionIds(questions) + [q.id]
  {
  }

  /** Under the foreign keys, no stored row links the fresh id, so the new
      question's links are exactly the requested points, and the only ways
      to throw are a repeated point and a point that does not exist. */
  lemma CreateQuestionLinksExactly(questions: seq<Question>, kps: seq<KnowledgePoint>, links: seq<QuestionKnowledgePoint>,
                                   r: CreateQuestionRequest, creatorId: Id, now: Time, kp: Id)
    requires LinksReferenceRows(questions, kps, links)
    ensures var o := CreateQuestionSpec(questions, kps, links, r, creatorId, now);
            o.reply.Thrown? <==> !Distinct(r.knowledgePointIds) || exists k :: 0 <= k < |r.knowledgePointIds| && r.knowledgePointIds[k] !in KnowledgePointIds(kps)
    ensures var o := CreateQuestionSpec(questions, kps, links, r, creatorId, now);
            o.reply.Done? ==> (kp in o.reply.value.data.knowledgePointIds <==> kp in r.knowledgePointIds)
  {
    var id := FreshId(QuestionIds(questions));
    assert forall l :: l in links ==> l.questionId != id by {
      forall l | l in links ensures l.questionId != id {
        var k :| 0 <= k < |QuestionIds(questions)| && QuestionIds(questions)[k] == l.questionId;
      }
    }
    var added := LinksFor(id, r.knowledgePointIds);
    if kp in r.knowledgePointIds {
      var k :| 0 <= k < |r.knowledgePointIds| && r.knowledgePointIds[k] == kp;
      assert added[k] == QuestionKnowledgePoint(id, kp);
    }
  }

  /** Create keeps the keys and the foreign keys, whether it throws or not. */
  lemma CreateQuestionKeepsTables(questions: seq<Question>, kps: seq<KnowledgePoint>, links: seq<QuestionKnowledgePoint>,
                                  r: CreateQuestionRequest, creatorId: Id, now: Time)
    requires QuestionTablesValid(questions, kps, links)
    ensures var o := CreateQuestionSpec(questions, kps, links, r, creatorId, now);
            QuestionTablesValid(o.questions, kps, o.links)
  {
    var o := CreateQuestionSpec(questions, kps, links, r, creatorId, now);
    var q := NewQuestionFor(questions, r, creatorId, now);
    forall j | 0 <= j < |questions| ensures DifferentIds(questions[j], q) {
      assert QuestionIds(questions)[j] == questions[j].id;
    }
    PairwiseAppend(questions, [q], DifferentIds);
    QuestionIdsSnoc(questions, q);
    if o.links != links {
      AddLinksKeepsKeys(links, q.id, r.knowledgePointIds);
    }
  }

  lemma SameIdKeepsQuestionIds(questions: seq<Question>, i: nat, q: Question)
    requires i < |questions| && q.id == questions[i].id
    ensures QuestionIds(questions[i := q]) == QuestionIds(questions)
    ensures QuestionIdsUnique(questions) ==> QuestionIdsUnique(questions[i := q])
  {
    assert forall j :: 0 <= j < |questions| ==> questions[i := q][j].id == questions[j].id;
  }

  /** Update keeps the keys and the foreign keys. */
  lemma UpdateQuestionKeepsTables(questions: seq<Question>, kps: seq<KnowledgePoint>, links: seq<QuestionKnowledgePoint>,
                                  r: UpdateQuestionRequest, now: Time)
    requires QuestionTablesValid(questions, kps, links)
    ensures var o := UpdateQuestionSpec(questions, kps, links, r, now);
            QuestionTablesValid(o.questions, kps, o.links)
  {
    match QuestionIndex(questions, r.id)
    case None =>
    case Some(i) =>
      var q := Overwrite(questions[i], r, now);
      var others := Filter(links, NotOfQuestion(r.id));
      if LinkFailure(kps, others, r.id, r.knowledgePointIds).None? {
        SameIdKeepsQuestionIds(questions, i, q);
        FilterPairwise(links, NotOfQuestion(r.id), DifferentLinks);
        AddLinksKeepsKeys(others, r.id, r.knowledgePointIds);
        assert QuestionIds(questions)[i] == r.id;
      }
  }

  /** Delete keeps the keys and the foreign keys: the row stays. */
  lemma DeleteQuestionKeepsTables(questions: seq<Question>, kps: seq<KnowledgePoint>, links: seq<QuestionKnowledgePoint>,
                                  id: Id, now: Time)
    requires QuestionTablesValid(questions, kps, links)
    ensures var o := DeleteQuestionSpec(questions, links, id, now);
            QuestionTablesValid(o.questions, kps, o.links)
  {
    match QuestionIndex(questions, id)
    case None =>
    case Some(i) =>
      SameIdKeepsQuestionIds(questions, i, questions[i].(isDeleted := true, updatedAt := Some(now)));
  }

  // ---------------------------------------------------------------------
  // The service methods
  // ---------------------------------------------------------------------

  method CreateQuestion(db: Database, r: CreateQuestionRequest, creatorId: Id, now: Time)
    returns (reply: Outcome<Result<QuestionDto>>)
    modifies db`questions, db`questionKnowledgePoints
    ensures var o := CreateQuestionSpec(old(db.questions), db.knowledgePoints, old(db.questionKnowledgePoints), r, creatorId, now);
            reply == o.reply && db.questions == o.questions && db.questionKnowledgePoints == o.links
  {
    var q := NewQuestionFor(db.questions, r, creatorId, now);
    db.questions := db.questions + [q];
    if |r.knowledgePointIds| > 0 {
      var failure := LinkFailure(db.knowledgePoints, db.questionKnowledgePoints, q.id, r.knowledgePointIds);
      if failure.Some? {
        return Thrown(failure.value);
      }
      db.questionKnowledgePoints := db.questionKnowledgePoints + LinksFor(q.id, r.knowledgePointIds);
    }
    reply := Done(Success(DtoOf(q, db.questionKnowledgePoints), MsgQuestionCreated));
  }

  method UpdateQuestion(db: Database, r: UpdateQuestionRequest, now: Time) returns (reply: Outcome<Result<QuestionDto>>)
    modifies db`questions, db`questionKnowledgePoints
    ensures var o := UpdateQuestionSpec(old(db.questions), db.knowledgePoints, old(db.questionKnowledgePoints), r, now);
            reply == o.reply && db.questions == o.questions && db.questionKnowledgePoints == o.links
  {
    var index := QuestionIndex(db.questions, r.id);
    if index.None? {
      return Done(Failure(MsgQuestionNotFound));
    }
    var i := index.value;
    var q := Overwrite(db.questions[i], r, now);
    var others := Filter(db.questionKnowledgePoints, NotOfQuestion(r.id));
    var failure := LinkFailure(db.knowledgePoints, others, r.id, r.knowledgePointIds);
    if failure.Some? {
      return Thrown(failure.value);
    }
    db.questions := db.questions[i := q];
    db.questionKnowledgePoints := others + LinksFor(r.id, r.knowledgePointIds);
    reply := Done(Success(DtoOf(q, db.questionKnowledgePoints), MsgQuestionUpdated));
  }

  method DeleteQuestion(db: Database, id: Id, now: Time) returns (reply: Outcome<Result<bool>>)
    modifies db`questions
    ensures var o := DeleteQuestionSpec(old(db.questions), db.questionKnowledgePoints, id, now);
            reply == o.reply && db.questions == o.questions
  {
    var index := QuestionIndex(db.questions, id);
    if index.None? {
      return Done(Failure(MsgQuestionNotFound));
    }
    var i := index.value;
    db.questions := db.questions[i := db.questions[i].(isDeleted := true, updatedAt := Some(now))];
    reply := Done(Success(true, MsgQuestionDeleted));
  }
}
