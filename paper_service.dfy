/** The paper service: composing a paper from a list of (question, order,
    score) entries, replacing that list, deleting an unused paper, and the
    paper views. A paper's TotalScore is the sum of the entries' scores, and
    the service keeps the paper tables' keys, references and totals intact. */
module PaperService {
  import opened Common
  import opened Domain
  import opened Store
  import opened PaperRepository

  const MsgPaperNotFound: string := "试卷不存在"
  const MsgSomeQuestionsMissing: string := "部分题目不存在"
  const MsgPaperCreated: string := "试卷创建成功"
  const MsgPaperUpdated: string := "试卷更新成功"
  const MsgPaperInUse: string := "该试卷已被用于考试，无法删除"
  const MsgPaperDeleted: string := "试卷删除成功"

  /** PaperQuestionDto: one entry of a create or update request. */
  datatype PaperEntry = PaperEntry(questionId: Id, questionOrder: int, score: int)

  /** CreatePaperDto, which is also the body of an update. */
  datatype PaperRequest = PaperRequest(title: string, description: Option<string>, duration: int,
                                       questions: seq<PaperEntry>)

  datatype PaperDto = PaperDto(id: Id, title: string, description: Option<string>, totalScore: int,
                               duration: int, questionCount: nat, createdAt: Time)

  /** PaperQuestionDetailDto without its nested question. */
  datatype PaperQuestionDetail = PaperQuestionDetail(questionId: Id, questionOrder: int, score: int)

  datatype PaperDetailDto = PaperDetailDto(id: Id, title: string, description: Option<string>, totalScore: int,
                                           duration: int, createdAt: Time, questions: seq<PaperQuestionDetail>)

  // ---------------------------------------------------------------------
  // The invariants of the paper tables
  // ---------------------------------------------------------------------

  /** The foreign key PaperQuestions.PaperId -> Papers.Id. */
  predicate LinksReferencePapers(papers: seq<Paper>, paperQuestions: seq<PaperQuestion>) {
    forall pq :: pq in paperQuestions ==> pq.paperId in PaperIds(papers)
  }

  /** Everything the service is there to keep: the two primary keys, the
      foreign key, and every visible paper's total equal to its rows' sum. */
  predicate PaperTablesValid(papers: seq<Paper>, paperQuestions: seq<PaperQuestion>) {
    && PaperIdsUnique(papers)
    && LinkKeysUnique(paperQuestions)
    && LinksReferencePapers(papers, paperQuestions)
    && TotalsConsistent(papers, paperQuestions)
  }

  /** The exams' foreign key to Papers (Restrict). The database checks it
      on every exam row, the soft-deleted ones included. */
  predicate ExamsReferencePapers(exams: seq<Exam>, papers: seq<Paper>) {
    forall e :: e in exams ==> e.paperId in PaperIds(papers)
  }

  function NotOfPaper(paperId: Id): PaperQuestion -> bool {
    (pq: PaperQuestion) => pq.paperId != paperId
  }

  // ---------------------------------------------------------------------
  // Looking the requested questions up
  // ---------------------------------------------------------------------

  /** Select(q => q.QuestionId). */
  function EntryIds(entries: seq<PaperEntry>): (r: seq<Id>)
    ensures |r| == |entries| && forall k :: 0 <= k < |r| ==> r[k] == entries[k].questionId
  {
    seq(|entries|, k requires 0 <= k < |entries| => entries[k].questionId)
  }

  function RequestedBy(ids: seq<Id>): Question -> bool {
    (q: Question) => !q.isDeleted && q.id in ids
  }

  /** GetQuestionsByIdsAsync: Where(q => ids.Contains(q.Id)) under the soft-delete filter. */
  function FoundQuestions(questions: seq<Question>, ids: seq<Id>): (r: seq<Question>)
    ensures forall q :: q in r <==> q in questions && !q.isDeleted && q.id in ids
  {
    Filter(questions, RequestedBy(ids))
  }

  /** The service's test: as many questions found as entries requested. */
  predicate AllFound(questions: seq<Question>, entries: seq<PaperEntry>) {
    |FoundQuestions(questions, EntryIds(entries))| == |entries|
  }

  /** The requested ids that name a live question. */
  function HitIds(questions: seq<Question>, ids: seq<Id>): set<Id> {
    set x | x in ids && QuestionFound(questions, x)
  }

  /** Comparing the two counts rejects both kinds of bad request: the counts
      agree exactly when no id repeats and every id names a live question. */
  lemma AllFoundIff(questions: seq<Question>, ids: seq<Id>)
    requires QuestionIdsUnique(questions)
    ensures |FoundQuestions(questions, ids)| == |ids|
        <==> Distinct(ids) && forall k :: 0 <= k < |ids| ==> QuestionFound(questions, ids[k])
  {
    var hit := HitIds(questions, ids);
    FoundCount(questions, ids);
    ElementsCard(ids);
    SubsetCard(hit, Elements(ids));
    if Distinct(ids) && forall k :: 0 <= k < |ids| ==> QuestionFound(questions, ids[k]) {
      assert Elements(ids) <= hit;
      assert hit == Elements(ids);
    }
    if |FoundQuestions(questions, ids)| == |ids| {
      assert |hit| == |Elements(ids)| == |ids|;
      assert hit == Elements(ids);
      forall k | 0 <= k < |ids| ensures QuestionFound(questions, ids[k]) {
        assert ids[k] in hit;
      }
      assert Distinct(ids);
    }
  }

  /** Under the primary key each requested live question is found once. */
  lemma FoundCount(questions: seq<Question>, ids: seq<Id>)
    requires QuestionIdsUnique(questions)
    ensures |FoundQuestions(questions, ids)| == |HitIds(questions, ids)|
  {
    var found := FoundQuestions(questions, ids);
    FilterPairwise(questions, RequestedBy(ids), DifferentIds);
    var fids := QuestionIds(found);
    assert Distinct(fids) by {
      forall i, j | 0 <= i < j < |fids| ensures fids[i] != fids[j] {
        assert DifferentIds(found[i], found[j]);
      }
    }
    ElementsCard(fids);
    FoundIdElements(questions, ids);
  }

  lemma FoundIdElements(questions: seq<Question>, ids: seq<Id>)
    ensures Elements(QuestionIds(FoundQuestions(questions, ids))) == HitIds(questions, ids)
  {
    var found := FoundQuestions(questions, ids);
    var fids := QuestionIds(found);
    forall x | x in Elements(fids) ensures x in HitIds(questions, ids) {
      var k :| 0 <= k < |fids| && fids[k] == x;
      assert found[k] in found;
      var j :| 0 <= j < |questions| && questions[j] == found[k];
      assert IsVisibleQuestion(questions[j], x);
    }
    forall x | x in HitIds(questions, ids) ensures x in Elements(fids) {
      var j :| 0 <= j < |questions| && IsVisibleQuestion(questions[j], x);
      assert questions[j] in found;
      var k :| 0 <= k < |found| && found[k] == questions[j];
      assert fids[k] == x;
    }
  }

  // ---------------------------------------------------------------------
  // The rows and the total built from a request
  // ---------------------------------------------------------------------

  function EntryScore(e: PaperEntry): int {
    e.score
  }

  /** Questions.Sum(q => q.Score). */
  function TotalOf(entries: seq<PaperEntry>): int {
    SumOf(entries, EntryScore)
  }

  function LinkOf(paperId: Id, e: PaperEntry): PaperQuestion {
    PaperQuestion(paperId, e.questionId, e.questionOrder, e.score)
  }

  /** The rows the foreach adds, one per entry, in entry order. */
  function LinksFor(paperId: Id, entries: seq<PaperEntry>): (r: seq<PaperQuestion>)
    ensures |r| == |entries|
    ensures forall k :: 0 <= k < |r| ==> r[k] == LinkOf(paperId, entries[k])
    decreases |entries|
  {
    if entries == [] then []
    else LinksFor(paperId, entries[..|entries| - 1]) + [LinkOf(paperId, entries[|entries| - 1])]
  }

  /** The rows built from a request carry the request's scores: their sum is
      the total the service stores. */
  lemma {:induction false} LinksForTotal(paperId: Id, entries: seq<PaperEntry>)
    ensures SumOf(LinksFor(paperId, entries), LinkScore) == TotalOf(entries)
    decreases |entries|
  {
    if entries != [] {
      var init := entries[..|entries| - 1];
      var links := LinksFor(paperId, entries);
      assert links[..|links| - 1] == LinksFor(paperId, init);
      LinksForTotal(paperId, init);
    }
  }

  /** All of them are rows of the paper, ... */
  lemma LinksForOwn(paperId: Id, entries: seq<PaperEntry>)
    ensures PaperLinks(LinksFor(paperId, entries), paperId) == LinksFor(paperId, entries)
  {
    FilterAllKept(LinksFor(paperId, entries), OfPaper(paperId));
  }

  /** ... none is a row of another paper, ... */
  lemma LinksForOthers(paperId: Id, entries: seq<PaperEntry>, other: Id)
    requires other != paperId
    ensures PaperLinks(LinksFor(paperId, entries), other) == []
  {
    FilterNone(LinksFor(paperId, entries), OfPaper(other));
  }

  /** ... and with no repeated question their keys are distinct. */
  lemma LinksForKeys(paperId: Id, entries: seq<PaperEntry>)
    requires Distinct(EntryIds(entries))
    ensures LinkKeysUnique(LinksFor(paperId, entries))
  {
    var links := LinksFor(paperId, entries);
    forall i, j | 0 <= i < j < |links| ensures DistinctKeys(links[i], links[j]) {
      assert EntryIds(entries)[i] != EntryIds(entries)[j];
    }
  }

  // ---------------------------------------------------------------------
  // The views
  // ---------------------------------------------------------------------

  /** MapToPaperDto: QuestionCount is the number of the paper's rows. */
  function PaperDtoOf(p: Paper, paperQuestions: seq<PaperQuestion>): PaperDto {
    PaperDto(p.id, p.title, p.description, p.totalScore, p.duration,
             QuestionCountInPaper(paperQuestions, p.id), p.createdAt)
  }

  /** GetPaperByIdAsync. */
  function GetPaperByIdSpec(papers: seq<Paper>, paperQuestions: seq<PaperQuestion>, id: Id): Result<PaperDto> {
    match PaperIndex(papers, id)
    case None => Failure(MsgPaperNotFound)
    case Some(i) => Success(PaperDtoOf(papers[i], paperQuestions), "")
  }

  /** A paper's view reports, on valid tables, as QuestionCount the number
      of distinct questions on the paper and as TotalScore their scores' sum. */
  lemma PaperByIdReportsRows(papers: seq<Paper>, paperQuestions: seq<PaperQuestion>, id: Id)
    requires PaperTablesValid(papers, paperQuestions)
    ensures var r := GetPaperByIdSpec(papers, paperQuestions, id);
            && (r.Failure? <==> PaperIndex(papers, id).None?)
            && (r.Failure? ==> r.message == MsgPaperNotFound)
            && (r.Success? ==>
                  && r.data.id == id
                  && r.data.questionCount
                     == |set pq | pq in paperQuestions && pq.paperId == id :: pq.questionId|
                  && r.data.totalScore == LinkedTotal(paperQuestions, id))
  {
    QuestionScoresOnePerLink(paperQuestions, id);
  }

  function DetailOf(pq: PaperQuestion): PaperQuestionDetail {
    PaperQuestionDetail(pq.questionId, pq.questionOrder, pq.score)
  }

  function DetailsOf(links: seq<PaperQuestion>): (r: seq<PaperQuestionDetail>)
    ensures |r| == |links| && forall k :: 0 <= k < |r| ==> r[k] == DetailOf(links[k])
  {
    seq(|links|, k requires 0 <= k < |links| => DetailOf(links[k]))
  }

  predicate OrderAsc(a: PaperQuestion, b: PaperQuestion) {
    a.questionOrder <= b.questionOrder
  }

  /** The paper's rows OrderBy(pq => pq.QuestionOrder). */
  function OrderedLinks(paperQuestions: seq<PaperQuestion>, paperId: Id): (r: seq<PaperQuestion>)
    ensures SortedBy(r, OrderAsc)
    ensures multiset(r) == multiset(PaperLinks(paperQuestions, paperId))
  {
    assert TotalPreorder(OrderAsc);
    SortBy(PaperLinks(paperQuestions, paperId), OrderAsc)
  }

  /** GetPaperDetailAsync. */
  function GetPaperDetailSpec(papers: seq<Paper>, paperQuestions: seq<PaperQuestion>, id: Id): Result<PaperDetailDto> {
    match PaperIndex(papers, id)
    case None => Failure(MsgPaperNotFound)
    case Some(i) =>
      var p := papers[i];
      Success(PaperDetailDto(p.id, p.title, p.description, p.totalScore, p.duration, p.createdAt,
                             DetailsOf(OrderedLinks(paperQuestions, id))), "")
  }

  /** The detail entry is one of the paper's rows. */
  ghost predicate DetailOfLink(paperQuestions: seq<PaperQuestion>, paperId: Id, d: PaperQuestionDetail) {
    exists pq :: pq in paperQuestions && pq.paperId == paperId && d == DetailOf(pq)
  }

  /** The detail lists every row of the paper, only those, as many as there
      are, in ascending QuestionOrder. */
  lemma PaperDetailContents(papers: seq<Paper>, paperQuestions: seq<PaperQuestion>, id: Id)
    ensures var r := GetPaperDetailSpec(papers, paperQuestions, id);
            && (r.Failure? <==> PaperIndex(papers, id).None?)
            && (r.Failure? ==> r.message == MsgPaperNotFound)
    ensures var r := GetPaperDetailSpec(papers, paperQuestions, id);
            r.Success? ==>
              var qs := r.data.questions;
              && r.data.id == id
              && |qs| == QuestionCountInPaper(paperQuestions, id)
              && (forall k, l :: 0 <= k < l < |qs| ==> qs[k].questionOrder <= qs[l].questionOrder)
              && (forall k :: 0 <= k < |qs| ==> DetailOfLink(paperQuestions, id, qs[k]))
              && (forall pq :: pq in paperQuestions && pq.paperId == id ==> DetailOf(pq) in qs)
  {
    if PaperIndex(papers, id).Some? {
      var sorted := OrderedLinks(paperQuestions, id);
      var qs := DetailsOf(sorted);
      assert |sorted| == |PaperLinks(paperQuestions, id)| by {
        assert |multiset(sorted)| == |multiset(PaperLinks(paperQuestions, id))|;
      }
      forall k, l | 0 <= k < l < |qs| ensures qs[k].questionOrder <= qs[l].questionOrder {
        assert OrderAsc(sorted[k], sorted[l]);
      }
      forall k | 0 <= k < |qs| ensures DetailOfLink(paperQuestions, id, qs[k]) {
        assert sorted[k] in multiset(sorted);
        assert sorted[k] in PaperLinks(paperQuestions, id);
      }
      forall pq | pq in paperQuestions && pq.paperId == id ensures DetailOf(pq) in qs {
        assert pq in multiset(PaperLinks(paperQuestions, id));
        assert pq in sorted;
        var k :| 0 <= k < |sorted| && sorted[k] == pq;
        assert qs[k] == DetailOf(pq);
      }
    }
  }

  // ---------------------------------------------------------------------
  // Create, update and delete as transitions on the two tables
  // ---------------------------------------------------------------------

  datatype PaperOutcome<T> = PaperOutcome(result: Result<T>, papers: seq<Paper>, paperQuestions: seq<PaperQuestion>)

  /** The paper CreatePaperAsync builds, with a fresh id. */
  function NewPaper(papers: seq<Paper>, request: PaperRequest, creatorId: Id, now: Time): Paper {
    Paper(FreshId(PaperIds(papers)), request.title, request.description, TotalOf(request.questions),
          request.duration, creatorId, now, Some(now), false)
  }

  /** CreatePaperAsync. */
  function CreatePaperSpec(questions: seq<Question>, papers: seq<Paper>, paperQuestions: seq<PaperQuestion>,
                           request: PaperRequest, creatorId: Id, now: Time): PaperOutcome<PaperDto>
  {
    if !AllFound(questions, request.questions) then
      PaperOutcome(Failure(MsgSomeQuestionsMissing), papers, paperQuestions)
    else
      var p := NewPaper(papers, request, creatorId, now);
      var links := paperQuestions + LinksFor(p.id, request.questions);
      PaperOutcome(Success(PaperDtoOf(p, links), MsgPaperCreated), papers + [p], links)
  }

  /** The paper UpdatePaperAsync writes back. */
  function Rewritten(p: Paper, request: PaperRequest, now: Time): Paper {
    p.(title := request.title, description := request.description, totalScore := TotalOf(request.questions),
       duration := request.duration, updatedAt := Some(now))
  }

  /** UpdatePaperAsync: the paper's old rows are removed and the new ones added. */
  function UpdatePaperSpec(questions: seq<Question>, papers: seq<Paper>, paperQuestions: seq<PaperQuestion>,
                           id: Id, request: PaperRequest, now: Time): PaperOutcome<PaperDto>
  {
    match PaperIndex(papers, id)
    case None => PaperOutcome(Failure(MsgPaperNotFound), papers, paperQuestions)
    case Some(i) =>
      if !AllFound(questions, request.questions) then
        PaperOutcome(Failure(MsgSomeQuestionsMissing), papers, paperQuestions)
      else
        var p := Rewritten(papers[i], request, now);
        var links := Filter(paperQuestions, NotOfPaper(id)) + LinksFor(id, request.questions);
        PaperOutcome(Success(PaperDtoOf(p, links), MsgPaperUpdated), papers[i := p], links)
  }

  predicate UsesPaper(e: Exam, paperId: Id) {
    e.paperId == paperId && !e.isDeleted
  }

  /** Exams.AnyAsync(e => e.PaperId == id), under the soft-delete filter. */
  function ExamOfPaper(paperId: Id): Exam -> bool {
    (e: Exam) => UsesPaper(e, paperId)
  }

  /** An exam row of any kind, soft-deleted or not, that names the paper:
      what the Restrict foreign key refuses to leave dangling. */
  predicate ExamRowNames(exams: seq<Exam>, paperId: Id) {
    exists j :: 0 <= j < |exams| && exams[j].paperId == paperId
  }

  /** DeletePaperAsync: the paper row goes, and by cascade its rows. The
      guard sees only visible exams; a soft-deleted exam that still names the
      paper makes SaveChanges throw on the Restrict foreign key. */
  function DeletePaperSpec(exams: seq<Exam>, papers: seq<Paper>, paperQuestions: seq<PaperQuestion>,
                           id: Id): Outcome<PaperOutcome<bool>>
  {
    match PaperIndex(papers, id)
    case None => Done(PaperOutcome(Failure(MsgPaperNotFound), papers, paperQuestions))
    case Some(i) =>
      if Any(exams, ExamOfPaper(id)) then Done(PaperOutcome(Failure(MsgPaperInUse), papers, paperQuestions))
      else if ExamRowNames(exams, id) then Thrown(MsgMissingReference)
      else Done(PaperOutcome(Success(true, MsgPaperDeleted), papers[..i] + papers[i + 1..],
                             Filter(paperQuestions, NotOfPaper(id))))
  }

  // ---------------------------------------------------------------------
  // Create
  // ---------------------------------------------------------------------

  /** Creating succeeds exactly when no question is requested twice and every
      requested question is live; a refused request writes nothing. */
  lemma CreatePaperAccepts(questions: seq<Question>, papers: seq<Paper>, paperQuestions: seq<PaperQuestion>,
                           request: PaperRequest, creatorId: Id, now: Time)
    requires QuestionIdsUnique(questions)
    ensures var o := CreatePaperSpec(questions, papers, paperQuestions, request, creatorId, now);
            var ids := EntryIds(request.questions);
            && (o.result.Success? <==> Distinct(ids) && forall k :: 0 <= k < |ids| ==> QuestionFound(questions, ids[k]))
            && (o.result.Failure? ==>
                  o.result.message == MsgSomeQuestionsMissing && o.papers == papers && o.paperQuestions == paperQuestions)
  {
    AllFoundIff(questions, EntryIds(request.questions));
  }

  /** A created paper is appended under a new id with the request's fields and
      the sum of the requested scores, with exactly one row per entry; its view
      counts one question per entry. */
  lemma CreatePaperAdds(questions: seq<Question>, papers: seq<Paper>, paperQuestions: seq<PaperQuestion>,
                        request: PaperRequest, creatorId: Id, now: Time)
    requires LinksReferencePapers(papers, paperQuestions)
    ensures var o := CreatePaperSpec(questions, papers, paperQuestions, request, creatorId, now);
            o.result.Success? ==>
              && |o.papers| == |papers| + 1 && o.papers[..|papers|] == papers
              && var p := o.papers[|papers|];
              && p.id !in PaperIds(papers)
              && p.title == request.title && p.description == request.description && p.duration == request.duration
              && p.creatorId == creatorId && p.createdAt == now && p.updatedAt == Some(now) && !p.isDeleted
              && p.totalScore == TotalOf(request.questions)
              && o.paperQuestions == paperQuestions + LinksFor(p.id, request.questions)
              && PaperLinks(o.paperQuestions, p.id) == LinksFor(p.id, request.questions)
              && o.result.data.id == p.id
              && o.result.data.questionCount == |request.questions|
  {
    if AllFound(questions, request.questions) {
      var p := NewPaper(papers, request, creatorId, now);
      NewPaperLinks(papers, paperQuestions, p.id, request.questions);
      assert (papers + [p])[..|papers|] == papers;
    }
  }

  /** No row belongs to an id that no paper has. */
  lemma UnknownPaperHasNoRows(papers: seq<Paper>, paperQuestions: seq<PaperQuestion>, id: Id)
    requires LinksReferencePapers(papers, paperQuestions) && id !in PaperIds(papers)
    ensures PaperLinks(paperQuestions, id) == []
  {
    FilterNone(paperQuestions, OfPaper(id));
  }

  /** Rows appended for a paper id that no row uses yet are exactly that paper's rows. */
  lemma NewPaperLinks(papers: seq<Paper>, paperQuestions: seq<PaperQuestion>, id: Id, entries: seq<PaperEntry>)
    requires LinksReferencePapers(papers, paperQuestions) && id !in PaperIds(papers)
    ensures PaperLinks(paperQuestions + LinksFor(id, entries), id) == LinksFor(id, entries)
  {
    UnknownPaperHasNoRows(papers, paperQuestions, id);
    FilterAppend(paperQuestions, LinksFor(id, entries), OfPaper(id));
    LinksForOwn(id, entries);
  }

  /** Creating keeps the paper tables valid. */
  lemma CreatePaperKeepsTables(questions: seq<Question>, papers: seq<Paper>, paperQuestions: seq<PaperQuestion>,
                               request: PaperRequest, creatorId: Id, now: Time)
    requires PaperTablesValid(papers, paperQuestions) && QuestionIdsUnique(questions)
    ensures var o := CreatePaperSpec(questions, papers, paperQuestions, request, creatorId, now);
            PaperTablesValid(o.papers, o.paperQuestions)
  {
    if AllFound(questions, request.questions) {
      var p := NewPaper(papers, request, creatorId, now);
      AllFoundIff(questions, EntryIds(request.questions));
      LinksForKeys(p.id, request.questions);
      CreateKeepsKeys(papers, paperQuestions, p.id, LinksFor(p.id, request.questions));
      CreateKeepsReferences(papers, paperQuestions, p, request.questions);
      CreateKeepsTotals(papers, paperQuestions, p, request.questions);
      AppendFreshPaper(papers, p);
    }
  }

  lemma AppendFreshPaper(papers: seq<Paper>, p: Paper)
    requires PaperIdsUnique(papers) && p.id == FreshId(PaperIds(papers))
    ensures PaperIdsUnique(papers + [p])
  {
    forall j | 0 <= j < |papers| ensures papers[j].id < p.id {
      assert PaperIds(papers)[j] == papers[j].id;
    }
  }

  lemma CreateKeepsKeys(papers: seq<Paper>, paperQuestions: seq<PaperQuestion>, id: Id, added: seq<PaperQuestion>)
    requires LinkKeysUnique(paperQuestions) && LinkKeysUnique(added)
    requires LinksReferencePapers(papers, paperQuestions) && id !in PaperIds(papers)
    requires forall pq :: pq in added ==> pq.paperId == id
    ensures LinkKeysUnique(paperQuestions + added)
  {
    forall i, j | 0 <= i < |paperQuestions| && 0 <= j < |added|
      ensures DistinctKeys(paperQuestions[i], added[j])
    {
      assert paperQuestions[i] in paperQuestions && added[j] in added;
    }
    PairwiseAppend(paperQuestions, added, DistinctKeys);
  }

  lemma CreateKeepsReferences(papers: seq<Paper>, paperQuestions: seq<PaperQuestion>, p: Paper, entries: seq<PaperEntry>)
    requires LinksReferencePapers(papers, paperQuestions)
    ensures LinksReferencePapers(papers + [p], paperQuestions + LinksFor(p.id, entries))
  {
    assert PaperIds(papers + [p]) == PaperIds(papers) + [p.id];
  }

  lemma CreateKeepsTotals(papers: seq<Paper>, paperQuestions: seq<PaperQuestion>, p: Paper, entries: seq<PaperEntry>)
    requires TotalsConsistent(papers, paperQuestions) && LinksReferencePapers(papers, paperQuestions)
    requires p.id !in PaperIds(papers) && p.totalScore == TotalOf(entries)
    ensures TotalsConsistent(papers + [p], paperQuestions + LinksFor(p.id, entries))
  {
    var added := LinksFor(p.id, entries);
    forall j | 0 <= j < |papers|
      ensures LinkedTotal(paperQuestions + added, papers[j].id) == LinkedTotal(paperQuestions, papers[j].id)
    {
      assert PaperIds(papers)[j] == papers[j].id;
      OtherPaperUnchangedByAppend(paperQuestions, p.id, entries, papers[j].id);
    }
    NewPaperLinks(papers, paperQuestions, p.id, entries);
    LinksForTotal(p.id, entries);
  }

  lemma OtherPaperUnchangedByAppend(paperQuestions: seq<PaperQuestion>, id: Id, entries: seq<PaperEntry>, other: Id)
    requires other != id
    ensures LinkedTotal(paperQuestions + LinksFor(id, entries), other) == LinkedTotal(paperQuestions, other)
  {
    LinksForOthers(id, entries, other);
    SumOfFilterAppend(paperQuestions, LinksFor(id, entries), OfPaper(other), LinkScore);
  }

  // ---------------------------------------------------------------------
  // Update
  // ---------------------------------------------------------------------

  /** Updating succeeds exactly when the paper exists, no question is
      requested twice and every requested question is live; a refused
      update writes nothing. */
  lemma UpdatePaperAccepts(questions: seq<Question>, papers: seq<Paper>, paperQuestions: seq<PaperQuestion>,
                           id: Id, request: PaperRequest, now: Time)
    requires QuestionIdsUnique(questions)
    ensures var o := UpdatePaperSpec(questions, papers, paperQuestions, id, request, now);
            var ids := EntryIds(request.questions);
            && (o.result.Success? <==>
                  && PaperIndex(papers, id).Some?
                  && Distinct(ids) && forall k :: 0 <= k < |ids| ==> QuestionFound(questions, ids[k]))
            && (PaperIndex(papers, id).None? ==> o.result == Failure(MsgPaperNotFound))
            && (PaperIndex(papers, id).Some? && o.result.Failure? ==> o.result == Failure(MsgSomeQuestionsMissing))
            && (o.result.Failure? ==> o.papers == papers && o.paperQuestions == paperQuestions)
  {
    AllFoundIff(questions, EntryIds(request.questions));
  }

  /** A successful update overwrites the paper's title, description,
      duration, total and update time, and replaces its rows by exactly one
      row per entry; other papers' rows are untouched. */
  lemma UpdatePaperReplaces(questions: seq<Question>, papers: seq<Paper>, paperQuestions: seq<PaperQuestion>,
                            id: Id, request: PaperRequest, now: Time)
    ensures var o := UpdatePaperSpec(questions, papers, paperQuestions, id, request, now);
            o.result.Success? ==>
              var i := PaperIndex(papers, id).value;
              && o.papers == papers[i := papers[i].(title := request.title, description := request.description,
                                                    totalScore := TotalOf(request.questions),
                                                    duration := request.duration, updatedAt := Some(now))]
              && PaperLinks(o.paperQuestions, id) == LinksFor(id, request.questions)
              && (forall x :: x != id ==> PaperLinks(o.paperQuestions, x) == PaperLinks(paperQuestions, x))
              && o.result.data.id == id
              && o.result.data.questionCount == |request.questions|
  {
    if PaperIndex(papers, id).Some? && AllFound(questions, request.questions) {
      ReplaceLinksOwn(paperQuestions, id, request.questions);
      forall x | x != id
        ensures PaperLinks(Filter(paperQuestions, NotOfPaper(id)) + LinksFor(id, request.questions), x)
             == PaperLinks(paperQuestions, x)
      {
        ReplaceLinksOthers(paperQuestions, id, request.questions, x);
      }
    }
  }

  lemma ReplaceLinksOwn(paperQuestions: seq<PaperQuestion>, id: Id, entries: seq<PaperEntry>)
    ensures PaperLinks(Filter(paperQuestions, NotOfPaper(id)) + LinksFor(id, entries), id) == LinksFor(id, entries)
  {
    var kept := Filter(paperQuestions, NotOfPaper(id));
    FilterNone(kept, OfPaper(id));
    FilterAppend(kept, LinksFor(id, entries), OfPaper(id));
    LinksForOwn(id, entries);
  }

  lemma ReplaceLinksOthers(paperQuestions: seq<PaperQuestion>, id: Id, entries: seq<PaperEntry>, other: Id)
    requires other != id
    ensures PaperLinks(Filter(paperQuestions, NotOfPaper(id)) + LinksFor(id, entries), other)
         == PaperLinks(paperQuestions, other)
  {
    var kept := Filter(paperQuestions, NotOfPaper(id));
    FilterNarrow(paperQuestions, NotOfPaper(id), OfPaper(other));
    FilterAppend(kept, LinksFor(id, entries), OfPaper(other));
    LinksForOthers(id, entries, other);
  }

  /** Updating keeps the paper tables valid. */
  lemma UpdatePaperKeepsTables(questions: seq<Question>, papers: seq<Paper>, paperQuestions: seq<PaperQuestion>,
                               id: Id, request: PaperRequest, now: Time)
    requires PaperTablesValid(papers, paperQuestions) && QuestionIdsUnique(questions)
    ensures var o := UpdatePaperSpec(questions, papers, paperQuestions, id, request, now);
            PaperTablesValid(o.papers, o.paperQuestions)
  {
    if PaperIndex(papers, id).Some? && AllFound(questions, request.questions) {
      var i := PaperIndex(papers, id).value;
      var p := Rewritten(papers[i], request, now);
      AllFoundIff(questions, EntryIds(request.questions));
      ReplaceKeepsKeys(paperQuestions, id, request.questions);
      ReplaceKeepsReferences(papers, paperQuestions, i, p, request.questions);
      ReplaceKeepsTotals(papers, paperQuestions, i, p, request.questions);
      SameIdKeepsPaperIds(papers, i, p);
    }
  }

  lemma SameIdKeepsPaperIds(papers: seq<Paper>, i: nat, p: Paper)
    requires PaperIdsUnique(papers) && i < |papers| && p.id == papers[i].id
    ensures PaperIdsUnique(papers[i := p])
  {
    assert forall j :: 0 <= j < |papers| ==> papers[i := p][j].id == papers[j].id;
  }

  lemma ReplaceKeepsKeys(paperQuestions: seq<PaperQuestion>, id: Id, entries: seq<PaperEntry>)
    requires LinkKeysUnique(paperQuestions) && Distinct(EntryIds(entries))
    ensures LinkKeysUnique(Filter(paperQuestions, NotOfPaper(id)) + LinksFor(id, entries))
  {
    var kept := Filter(paperQuestions, NotOfPaper(id));
    var added := LinksFor(id, entries);
    FilterPairwise(paperQuestions, NotOfPaper(id), DistinctKeys);
    LinksForKeys(id, entries);
    forall i, j | 0 <= i < |kept| && 0 <= j < |added| ensures DistinctKeys(kept[i], added[j]) {
      assert kept[i] in kept;
    }
    PairwiseAppend(kept, added, DistinctKeys);
  }

  lemma ReplaceKeepsReferences(papers: seq<Paper>, paperQuestions: seq<PaperQuestion>, i: nat, p: Paper,
                               entries: seq<PaperEntry>)
    requires i < |papers| && p.id == papers[i].id && LinksReferencePapers(papers, paperQuestions)
    ensures LinksReferencePapers(papers[i := p], Filter(paperQuestions, NotOfPaper(p.id)) + LinksFor(p.id, entries))
  {
    assert PaperIds(papers[i := p]) == PaperIds(papers);
    assert PaperIds(papers)[i] == p.id;
  }

  lemma ReplaceKeepsTotals(papers: seq<Paper>, paperQuestions: seq<PaperQuestion>, i: nat, p: Paper,
                           entries: seq<PaperEntry>)
    requires PaperIdsUnique(papers) && TotalsConsistent(papers, paperQuestions)
    requires i < |papers| && p.id == papers[i].id && p.isDeleted == papers[i].isDeleted
    requires p.totalScore == TotalOf(entries)
    ensures TotalsConsistent(papers[i := p], Filter(paperQuestions, NotOfPaper(p.id)) + LinksFor(p.id, entries))
  {
    var links := Filter(paperQuestions, NotOfPaper(p.id)) + LinksFor(p.id, entries);
    forall j | 0 <= j < |papers| && j != i
      ensures LinkedTotal(links, papers[j].id) == LinkedTotal(paperQuestions, papers[j].id)
    {
      ReplaceLinksOthers(paperQuestions, p.id, entries, papers[j].id);
    }
    ReplaceLinksOwn(paperQuestions, p.id, entries);
    LinksForTotal(p.id, entries);
  }

  // ---------------------------------------------------------------------
  // Delete
  // ---------------------------------------------------------------------

  /** Deleting succeeds exactly when the paper exists and no exam row at all
      names it; it throws exactly when only soft-deleted exams name it; a
      refused delete writes nothing. */
  lemma DeletePaperAccepts(exams: seq<Exam>, papers: seq<Paper>, paperQuestions: seq<PaperQuestion>, id: Id)
    ensures var o := DeletePaperSpec(exams, papers, paperQuestions, id);
            && (o.Done? && o.value.result.Success? <==>
                  PaperIndex(papers, id).Some? && forall j :: 0 <= j < |exams| ==> exams[j].paperId != id)
            && (o.Thrown? <==>
                  && PaperIndex(papers, id).Some? && ExamRowNames(exams, id)
                  && forall j :: 0 <= j < |exams| ==> !UsesPaper(exams[j], id))
            && (o.Thrown? ==> o.message == MsgMissingReference)
            && (PaperIndex(papers, id).None? ==> o == Done(PaperOutcome(Failure(MsgPaperNotFound), papers, paperQuestions)))
            && (PaperIndex(papers, id).Some? && o.Done? && o.value.result.Failure? ==> o.value.result == Failure(MsgPaperInUse))
            && (o.Done? && o.value.result.Failure? ==> o.value.papers == papers && o.value.paperQuestions == paperQuestions)
  {
  }

  /** A successful delete removes the paper row, leaving no row with its id,
      and all of its rows, and nothing else. */
  lemma DeletePaperRemoves(exams: seq<Exam>, papers: seq<Paper>, paperQuestions: seq<PaperQuestion>, id: Id)
    requires PaperIdsUnique(papers)
    ensures var o := DeletePaperSpec(exams, papers, paperQuestions, id);
            o.Done? && o.value.result.Success? ==>
              var i := PaperIndex(papers, id).value;
              var o := o.value;
              && o.papers == papers[..i] + papers[i + 1..]
              && id !in PaperIds(o.papers)
              && PaperLinks(o.paperQuestions, id) == []
              && (forall x :: x != id ==> PaperLinks(o.paperQuestions, x) == PaperLinks(paperQuestions, x))
  {
    var o := DeletePaperSpec(exams, papers, paperQuestions, id);
    if o.Done? && o.value.result.Success? {
      var i := PaperIndex(papers, id).value;
      RemovedPaperIdGone(papers, i);
      var kept := Filter(paperQuestions, NotOfPaper(id));
      FilterNone(kept, OfPaper(id));
      forall x | x != id ensures PaperLinks(kept, x) == PaperLinks(paperQuestions, x) {
        FilterNarrow(paperQuestions, NotOfPaper(id), OfPaper(x));
      }
    }
  }

  /** Under the primary key, removing a paper's position removes its id. */
  lemma RemovedPaperIdGone(papers: seq<Paper>, i: nat)
    requires PaperIdsUnique(papers) && i < |papers|
    ensures papers[i].id !in PaperIds(papers[..i] + papers[i + 1..])
  {
    var rest := papers[..i] + papers[i + 1..];
    forall k | 0 <= k < |rest| ensures rest[k].id != papers[i].id {
      if k < i {
        assert rest[k] == papers[k];
      } else {
        assert rest[k] == papers[k + 1];
      }
    }
  }

  /** Every other id survives the removal of one position. */
  lemma RemovedPaperKeepsOthers(papers: seq<Paper>, i: nat, x: Id)
    requires i < |papers| && x in PaperIds(papers) && x != papers[i].id
    ensures x in PaperIds(papers[..i] + papers[i + 1..])
  {
    var rest := papers[..i] + papers[i + 1..];
    var k :| 0 <= k < |papers| && papers[k].id == x;
    if k < i {
      assert rest[k] == papers[k];
      assert PaperIds(rest)[k] == x;
    } else {
      assert rest[k - 1] == papers[k];
      assert PaperIds(rest)[k - 1] == x;
    }
  }

  /** A delete that does not throw keeps the paper tables valid and leaves
      no exam row, deleted or not, pointing at a missing paper. */
  lemma DeletePaperKeepsTables(exams: seq<Exam>, papers: seq<Paper>, paperQuestions: seq<PaperQuestion>, id: Id)
    requires PaperTablesValid(papers, paperQuestions) && ExamsReferencePapers(exams, papers)
    ensures var o := DeletePaperSpec(exams, papers, paperQuestions, id);
            o.Done? ==> PaperTablesValid(o.value.papers, o.value.paperQuestions) && ExamsReferencePapers(exams, o.value.papers)
  {
    var o := DeletePaperSpec(exams, papers, paperQuestions, id);
    if o.Done? && o.value.result.Success? {
      var i := PaperIndex(papers, id).value;
      var rest := papers[..i] + papers[i + 1..];
      assert o.value.papers == rest;
      assert !ExamRowNames(exams, id);
      DeleteKeepsKeysAndReferences(papers, paperQuestions, i);
      DeleteKeepsTotals(papers, paperQuestions, i);
      forall e | e in exams ensures e.paperId in PaperIds(rest) {
        var j :| 0 <= j < |exams| && exams[j] == e;
        RemovedPaperKeepsOthers(papers, i, e.paperId);
      }
    }
  }

  lemma DeleteKeepsKeysAndReferences(papers: seq<Paper>, paperQuestions: seq<PaperQuestion>, i: nat)
    requires PaperTablesValid(papers, paperQuestions) && i < |papers|
    ensures var rest := papers[..i] + papers[i + 1..];
            var kept := Filter(paperQuestions, NotOfPaper(papers[i].id));
            PaperIdsUnique(rest) && LinkKeysUnique(kept) && LinksReferencePapers(rest, kept)
  {
    var rest := papers[..i] + papers[i + 1..];
    var kept := Filter(paperQuestions, NotOfPaper(papers[i].id));
    FilterPairwise(paperQuestions, NotOfPaper(papers[i].id), DistinctKeys);
    forall pq | pq in kept ensures pq.paperId in PaperIds(rest) {
      RemovedPaperKeepsOthers(papers, i, pq.paperId);
    }
    assert PaperIdsUnique(rest) by {
      assert forall k :: 0 <= k < |rest| ==> rest[k] == if k < i then papers[k] else papers[k + 1];
    }
  }

  lemma DeleteKeepsTotals(papers: seq<Paper>, paperQuestions: seq<PaperQuestion>, i: nat)
    requires PaperIdsUnique(papers) && TotalsConsistent(papers, paperQuestions) && i < |papers|
    ensures TotalsConsistent(papers[..i] + papers[i + 1..], Filter(paperQuestions, NotOfPaper(papers[i].id)))
  {
    var rest := papers[..i] + papers[i + 1..];
    var id := papers[i].id;
    forall k | 0 <= k < |rest|
      ensures rest[k] == papers[if k < i then k else k + 1] && rest[k].id != id
    {
    }
    forall k | 0 <= k < |rest|
      ensures LinkedTotal(Filter(paperQuestions, NotOfPaper(id)), rest[k].id) == LinkedTotal(paperQuestions, rest[k].id)
    {
      FilterNarrow(paperQuestions, NotOfPaper(id), OfPaper(rest[k].id));
    }
  }

  // ---------------------------------------------------------------------
  // The service methods on the database
  // ---------------------------------------------------------------------

  /** The foreach that adds one row per entry. */
  method BuildLinks(paperId: Id, entries: seq<PaperEntry>) returns (links: seq<PaperQuestion>)
    ensures links == LinksFor(paperId, entries)
  {
    links := [];
    for k := 0 to |entries|
      invariant links == LinksFor(paperId, entries[..k])
    {
      assert entries[..k + 1][..k] == entries[..k];
      links := links + [PaperQuestion(paperId, entries[k].questionId, entries[k].questionOrder, entries[k].score)];
    }
    assert entries[..|entries|] == entries;
  }

  /** CreatePaperAsync. */
  method CreatePaper(db: Database, request: PaperRequest, creatorId: Id, now: Time) returns (r: Result<PaperDto>)
    modifies db`papers, db`paperQuestions
    ensures var o := CreatePaperSpec(db.questions, old(db.papers), old(db.paperQuestions), request, creatorId, now);
            r == o.result && db.papers == o.papers && db.paperQuestions == o.paperQuestions
  {
    var questionIds := EntryIds(request.questions);
    var found := FoundQuestions(db.questions, questionIds);
    if |found| != |questionIds| {
      return Failure(MsgSomeQuestionsMissing);
    }
    var totalScore := TotalOf(request.questions);
    var paper := Paper(FreshId(PaperIds(db.papers)), request.title, request.description, totalScore,
                       request.duration, creatorId, now, Some(now), false);
    var links := BuildLinks(paper.id, request.questions);
    db.papers := db.papers + [paper];
    db.paperQuestions := db.paperQuestions + links;
    return Success(PaperDtoOf(paper, db.paperQuestions), MsgPaperCreated);
  }

  /** UpdatePaperAsync. */
  method UpdatePaper(db: Database, id: Id, request: PaperRequest, now: Time) returns (r: Result<PaperDto>)
    modifies db`papers, db`paperQuestions
    ensures var o := UpdatePaperSpec(db.questions, old(db.papers), old(db.paperQuestions), id, request, now);
            r == o.result && db.papers == o.papers && db.paperQuestions == o.paperQuestions
  {
    var index := PaperIndex(db.papers, id);
    if index.None? {
      return Failure(MsgPaperNotFound);
    }
    var questionIds := EntryIds(request.questions);
    var found := FoundQuestions(db.questions, questionIds);
    if |found| != |questionIds| {
      return Failure(MsgSomeQuestionsMissing);
    }
    var paper := db.papers[index.value];
    paper := paper.(title := request.title, description := request.description,
                    totalScore := TotalOf(request.questions), duration := request.duration, updatedAt := Some(now));
    var links := BuildLinks(id, request.questions);
    db.papers := db.papers[index.value := paper];
    db.paperQuestions := Filter(db.paperQuestions, NotOfPaper(id)) + links;
    return Success(PaperDtoOf(paper, db.paperQuestions), MsgPaperUpdated);
  }

  /** DeletePaperAsync. A throwing SaveChanges leaves the tables as they were. */
  method DeletePaper(db: Database, id: Id) returns (r: Outcome<Result<bool>>)
    modifies db`papers, db`paperQuestions
    ensures var o := DeletePaperSpec(db.exams, old(db.papers), old(db.paperQuestions), id);
            match o
            case Thrown(message) =>
              r == Thrown(message) && db.papers == old(db.papers) && db.paperQuestions == old(db.paperQuestions)
            case Done(v) =>
              r == Done(v.result) && db.papers == v.papers && db.paperQuestions == v.paperQuestions
  {
    var index := PaperIndex(db.papers, id);
    if index.None? {
      return Done(Failure(MsgPaperNotFound));
    }
    if Any(db.exams, ExamOfPaper(id)) {
      return Done(Failure(MsgPaperInUse));
    }
    if ExamRowNames(db.exams, id) {
      return Thrown(MsgMissingReference);
    }
    var i := index.value;
    db.papers := db.papers[..i] + db.papers[i + 1..];
    db.paperQuestions := Filter(db.paperQuestions, NotOfPaper(id));
    return Done(Success(true, MsgPaperDeleted));
  }
}
