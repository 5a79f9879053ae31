/** The student's learning tools: the wrong-question book (an upsert with a
    counter and a soft "removed" flag), favorites (one per user and question,
    physically deleted), and notes (one per user and question, changed only by
    their owner). Every service call is a pure transition on the one table it
    writes, and a method on the database that performs it. Lookups see only
    rows whose soft-delete flag is clear. */
module LearningService {
  import opened Common
  import opened Domain
  import opened Store

  const MsgQuestionNotFound: string := "题目不存在"
  const MsgWrongUpdated: string := "错题已更新"
  const MsgWrongAdded: string := "已添加到错题本"
  const MsgWrongNotFound: string := "错题记录不存在"
  const MsgWrongRemoved: string := "已从错题本移除"
  const MsgAlreadyFavorite: string := "已收藏该题目"
  const MsgFavorited: string := "收藏成功"
  const MsgFavoriteNotFound: string := "收藏记录不存在"
  const MsgUnfavorited: string := "取消收藏成功"
  const MsgFavoriteNoteUpdated: string := "备注更新成功"
  const MsgNoteExists: string := "该题目已有笔记，请使用更新功能"
  const MsgNoteCreated: string := "笔记创建成功"
  const MsgNoteNotFound: string := "笔记不存在"
  const MsgNoteUpdated: string := "笔记更新成功"
  const MsgNoteDeleted: string := "笔记删除成功"

  /** GetByIdAsync on the question repository, under the soft-delete filter. */
  predicate QuestionExists(questions: seq<Question>, id: Id) {
    exists j :: 0 <= j < |questions| && questions[j].id == id && !questions[j].isDeleted
  }

  // ---------------------------------------------------------------------
  // The wrong-question book
  // ---------------------------------------------------------------------

  predicate IsWrongOf(w: WrongQuestion, userId: Id, questionId: Id) {
    w.userId == userId && w.questionId == questionId && !w.isDeleted
  }

  /** The user's record for the question (FirstOrDefaultAsync on UserId and QuestionId). */
  function WrongIndex(wrongs: seq<WrongQuestion>, userId: Id, questionId: Id): (r: Option<nat>)
    ensures r.Some? ==> r.value < |wrongs| && IsWrongOf(wrongs[r.value], userId, questionId)
    ensures r.Some? ==> forall j :: 0 <= j < r.value ==> !IsWrongOf(wrongs[j], userId, questionId)
    ensures r.None? ==> forall j :: 0 <= j < |wrongs| ==> !IsWrongOf(wrongs[j], userId, questionId)
  {
    FirstIndex(wrongs, (w: WrongQuestion) => IsWrongOf(w, userId, questionId))
  }

  /** The unique index on (UserId, QuestionId), over the visible rows. */
  predicate WrongPairsUnique(wrongs: seq<WrongQuestion>) {
    forall i, j :: 0 <= i < j < |wrongs| && !wrongs[i].isDeleted ==>
      !IsWrongOf(wrongs[j], wrongs[i].userId, wrongs[i].questionId)
  }

  /** How often the user has got the question wrong, 0 when there is no record. */
  function WrongCountOf(wrongs: seq<WrongQuestion>, userId: Id, questionId: Id): int {
    match WrongIndex(wrongs, userId, questionId)
    case None => 0
    case Some(i) => wrongs[i].wrongCount
  }

  /** The question is in the user's book: recorded and not removed. */
  predicate InWrongBook(wrongs: seq<WrongQuestion>, userId: Id, questionId: Id) {
    WrongIndex(wrongs, userId, questionId).Some? && !wrongs[WrongIndex(wrongs, userId, questionId).value].isRemoved
  }

  /** The row a first mistake creates. */
  function NewWrong(wrongs: seq<WrongQuestion>, userId: Id, questionId: Id, now: Time): (w: WrongQuestion)
    ensures forall j :: 0 <= j < |wrongs| ==> wrongs[j].id != w.id
  {
    var ids := WrongQuestionIds(wrongs);
    assert forall j :: 0 <= j < |wrongs| ==> ids[j] == wrongs[j].id;
    WrongQuestion(FreshId(ids), userId, questionId, 1, now, false, now, Some(now), false)
  }

  /** The existing row after one more mistake. */
  function Relapse(w: WrongQuestion, now: Time): WrongQuestion {
    w.(isRemoved := false, wrongCount := w.wrongCount + 1, lastWrongAt := now, updatedAt := Some(now))
  }

  datatype WrongOutcome = WrongOutcome(result: Result<WrongQuestion>, wrongs: seq<WrongQuestion>)

  /** AddWrongQuestionAsync on the wrong-question table. */
  function AddWrongQuestionSpec(questions: seq<Question>, wrongs: seq<WrongQuestion>,
                                userId: Id, questionId: Id, now: Time): WrongOutcome
  {
    if !QuestionExists(questions, questionId) then WrongOutcome(Failure(MsgQuestionNotFound), wrongs)
    else match WrongIndex(wrongs, userId, questionId)
      case Some(i) =>
        var w := Relapse(wrongs[i], now);
        WrongOutcome(Success(w, MsgWrongUpdated), wrongs[i := w])
      case None =>
        var w := NewWrong(wrongs, userId, questionId, now);
        WrongOutcome(Success(w, MsgWrongAdded), wrongs + [w])
  }

  /** Replacing the found row by another row with the same key keeps it the found row. */
  lemma WrongIndexAfterSet(wrongs: seq<WrongQuestion>, i: nat, w: WrongQuestion, userId: Id, questionId: Id)
    requires WrongIndex(wrongs, userId, questionId) == Some(i)
    requires IsWrongOf(w, userId, questionId)
    ensures WrongIndex(wrongs[i := w], userId, questionId) == Some(i)
  {
    var s := wrongs[i := w];
    assert IsWrongOf(s[i], userId, questionId);
    var r := WrongIndex(s, userId, questionId);
    assert r.Some?;
  }

  lemma WrongIndexAfterAppend(wrongs: seq<WrongQuestion>, w: WrongQuestion, userId: Id, questionId: Id)
    requires WrongIndex(wrongs, userId, questionId).None?
    requires IsWrongOf(w, userId, questionId)
    ensures WrongIndex(wrongs + [w], userId, questionId) == Some(|wrongs|)
  {
    var s := wrongs + [w];
    assert IsWrongOf(s[|wrongs|], userId, questionId);
    var r := WrongIndex(s, userId, questionId);
    assert r.Some?;
  }

  /** Under the unique index, a matching row is the found row. */
  lemma WrongIndexUnique(wrongs: seq<WrongQuestion>, i: nat, userId: Id, questionId: Id)
    requires WrongPairsUnique(wrongs)
    requires i < |wrongs| && IsWrongOf(wrongs[i], userId, questionId)
    ensures WrongIndex(wrongs, userId, questionId) == Some(i)
  {
  }

  /** A missing (or deleted) question is an error and nothing is written. */
  lemma AddWrongNeedsQuestion(questions: seq<Question>, wrongs: seq<WrongQuestion>, userId: Id, questionId: Id, now: Time)
    requires !QuestionExists(questions, questionId)
    ensures AddWrongQuestionSpec(questions, wrongs, userId, questionId, now) == WrongOutcome(Failure(MsgQuestionNotFound), wrongs)
  {
  }

  /** Adding a mistake on an existing question always succeeds and leaves exactly
      the returned record for the pair, counted once more, not removed, last
      wrong now. A recorded pair is updated in place (no second record, no other
      row changed); an unrecorded one gets a new record with count 1. */
  lemma {:induction false} AddWrongCounts(questions: seq<Question>, wrongs: seq<WrongQuestion>, userId: Id, questionId: Id, now: Time)
    requires QuestionExists(questions, questionId)
    ensures var o := AddWrongQuestionSpec(questions, wrongs, userId, questionId, now);
            && o.result.Success?
            && WrongIndex(o.wrongs, userId, questionId).Some?
            && o.wrongs[WrongIndex(o.wrongs, userId, questionId).value] == o.result.data
            && WrongCountOf(o.wrongs, userId, questionId) == WrongCountOf(wrongs, userId, questionId) + 1
            && InWrongBook(o.wrongs, userId, questionId)
            && o.result.data.lastWrongAt == now
  {
    var o := AddWrongQuestionSpec(questions, wrongs, userId, questionId, now);
    match WrongIndex(wrongs, userId, questionId)
    case Some(i) =>
      WrongIndexAfterSet(wrongs, i, Relapse(wrongs[i], now), userId, questionId);
    case None =>
      WrongIndexAfterAppend(wrongs, NewWrong(wrongs, userId, questionId, now), userId, questionId);
  }

  /** Re-adding a recorded pair changes only that row, and in it only the
      counter, the removed flag and the two times. */
  lemma {:induction false} ReAddUpdatesInPlace(questions: seq<Question>, wrongs: seq<WrongQuestion>, userId: Id, questionId: Id, now: Time)
    requires QuestionExists(questions, questionId)
    requires WrongIndex(wrongs, userId, questionId).Some?
    ensures var o := AddWrongQuestionSpec(questions, wrongs, userId, questionId, now);
            var i := WrongIndex(wrongs, userId, questionId).value;
            && o.result.message == MsgWrongUpdated
            && |o.wrongs| == |wrongs|
            && (forall k :: 0 <= k < |wrongs| && k != i ==> o.wrongs[k] == wrongs[k])
            && o.wrongs[i].id == wrongs[i].id && o.wrongs[i].createdAt == wrongs[i].createdAt
            && o.wrongs[i].wrongCount == wrongs[i].wrongCount + 1 && !o.wrongs[i].isRemoved
  {
  }

  /** A first mistake appends one fresh record with count 1. */
  lemma {:induction false} FirstAddCreatesRecord(questions: seq<Question>, wrongs: seq<WrongQuestion>, userId: Id, questionId: Id, now: Time)
    requires QuestionExists(questions, questionId)
    requires WrongIndex(wrongs, userId, questionId).None?
    ensures var o := AddWrongQuestionSpec(questions, wrongs, userId, questionId, now);
            var w := o.result.data;
            && o.result.message == MsgWrongAdded
            && o.wrongs == wrongs + [w]
            && w.userId == userId && w.questionId == questionId && w.wrongCount == 1 && !w.isRemoved
            && w.createdAt == now && !w.isDeleted
            && (forall j :: 0 <= j < |wrongs| ==> wrongs[j].id != w.id)
  {
  }

  lemma WrongPairsUniqueAfterSet(wrongs: seq<WrongQuestion>, i: nat, w: WrongQuestion)
    requires WrongPairsUnique(wrongs) && i < |wrongs|
    requires w.userId == wrongs[i].userId && w.questionId == wrongs[i].questionId && w.isDeleted == wrongs[i].isDeleted
    ensures WrongPairsUnique(wrongs[i := w])
  {
  }

  /** Adding a mistake never breaks the unique index. */
  lemma {:induction false} AddWrongKeepsPairsUnique(questions: seq<Question>, wrongs: seq<WrongQuestion>, userId: Id, questionId: Id, now: Time)
    requires WrongPairsUnique(wrongs)
    ensures WrongPairsUnique(AddWrongQuestionSpec(questions, wrongs, userId, questionId, now).wrongs)
  {
    if QuestionExists(questions, questionId) {
      match WrongIndex(wrongs, userId, questionId)
      case Some(i) => WrongPairsUniqueAfterSet(wrongs, i, Relapse(wrongs[i], now));
      case None =>
        var s := wrongs + [NewWrong(wrongs, userId, questionId, now)];
        assert forall j :: 0 <= j < |wrongs| ==> s[j] == wrongs[j];
    }
  }

  datatype FlagOutcome = FlagOutcome(result: Result<bool>, wrongs: seq<WrongQuestion>)

  /** RemoveWrongQuestionAsync: the record stays, only flagged as removed. */
  function RemoveWrongQuestionSpec(wrongs: seq<WrongQuestion>, userId: Id, questionId: Id, now: Time): FlagOutcome {
    match WrongIndex(wrongs, userId, questionId)
    case None => FlagOutcome(Failure(MsgWrongNotFound), wrongs)
    case Some(i) => FlagOutcome(Success(true, MsgWrongRemoved), wrongs[i := wrongs[i].(isRemoved := true, updatedAt := Some(now))])
  }

  /** Removal succeeds exactly when the pair is recorded, removed or not; it
      keeps the record and its count, takes it out of the book, and changes no
      other row. A missing record is an error and nothing is written. */
  lemma {:induction false} RemoveWrongKeepsRecord(wrongs: seq<WrongQuestion>, userId: Id, questionId: Id, now: Time)
    ensures var o := RemoveWrongQuestionSpec(wrongs, userId, questionId, now);
            && (o.result.Success? <==> WrongIndex(wrongs, userId, questionId).Some?)
            && (o.result.Failure? ==> o.result.message == MsgWrongNotFound && o.wrongs == wrongs)
            && (o.result.Success? ==>
                  var i := WrongIndex(wrongs, userId, questionId).value;
                  && |o.wrongs| == |wrongs|
                  && WrongIndex(o.wrongs, userId, questionId) == Some(i)
                  && WrongCountOf(o.wrongs, userId, questionId) == WrongCountOf(wrongs, userId, questionId)
                  && !InWrongBook(o.wrongs, userId, questionId)
                  && o.wrongs[i] == wrongs[i].(isRemoved := true, updatedAt := Some(now))
                  && (forall k :: 0 <= k < |wrongs| && k != i ==> o.wrongs[k] == wrongs[k]))
  {
    match WrongIndex(wrongs, userId, questionId)
    case None =>
    case Some(i) =>
      WrongIndexAfterSet(wrongs, i, wrongs[i].(isRemoved := true, updatedAt := Some(now)), userId, questionId);
  }

  /** Removing twice is removing once (at the later time). */
  lemma {:induction false} RemoveWrongIdempotent(wrongs: seq<WrongQuestion>, userId: Id, questionId: Id, t1: Time, t2: Time)
    ensures RemoveWrongQuestionSpec(RemoveWrongQuestionSpec(wrongs, userId, questionId, t1).wrongs, userId, questionId, t2)
         == RemoveWrongQuestionSpec(wrongs, userId, questionId, t2)
  {
    RemoveWrongKeepsRecord(wrongs, userId, questionId, t1);
  }

  /** A removed question is no longer listed, and removal keeps the unique index. */
  lemma {:induction false} RemovedLeavesListing(wrongs: seq<WrongQuestion>, userId: Id, questionId: Id, now: Time)
    requires WrongPairsUnique(wrongs)
    requires WrongIndex(wrongs, userId, questionId).Some?
    ensures var o := RemoveWrongQuestionSpec(wrongs, userId, questionId, now);
            && WrongPairsUnique(o.wrongs)
            && forall w :: w in UserWrongList(o.wrongs, userId) ==> w.questionId != questionId
  {
    var i := WrongIndex(wrongs, userId, questionId).value;
    var s := wrongs[i := wrongs[i].(isRemoved := true, updatedAt := Some(now))];
    WrongPairsUniqueAfterSet(wrongs, i, s[i]);
    forall w | w in UserWrongList(s, userId) ensures w.questionId != questionId {
      assert multiset(UserWrongList(s, userId))[w] > 0;
      var k :| 0 <= k < |s| && s[k] == w;
      if w.questionId == questionId {
        WrongIndexUnique(s, k, userId, questionId);
        WrongIndexAfterSet(wrongs, i, s[i], userId, questionId);
      }
    }
  }

  // Listings

  predicate IsListedWrong(w: WrongQuestion, userId: Id) {
    w.userId == userId && !w.isRemoved && !w.isDeleted
  }

  predicate LastWrongDesc(a: WrongQuestion, b: WrongQuestion) {
    a.lastWrongAt >= b.lastWrongAt
  }

  /** The user's book, most recent mistake first. */
  function UserWrongList(wrongs: seq<WrongQuestion>, userId: Id): (r: seq<WrongQuestion>)
    ensures forall w :: multiset(r)[w] == if IsListedWrong(w, userId) then multiset(wrongs)[w] else 0
    ensures |r| == Count(wrongs, (w: WrongQuestion) => IsListedWrong(w, userId))
    ensures SortedBy(r, LastWrongDesc)
  {
    var p := (w: WrongQuestion) => IsListedWrong(w, userId);
    var found := Filter(wrongs, p);
    forall w ensures multiset(found)[w] == if IsListedWrong(w, userId) then multiset(wrongs)[w] else 0 {
      FilterMultiset(wrongs, p, w);
    }
    assert TotalPreorder(LastWrongDesc);
    SortBy(found, LastWrongDesc)
  }

  /** WrongQuestionDto without its Question part. */
  datatype WrongQuestionDto = WrongQuestionDto(id: Id, questionId: Id, wrongCount: int, lastWrongAt: Time)

  function WrongDtoOf(w: WrongQuestion): WrongQuestionDto {
    WrongQuestionDto(w.id, w.questionId, w.wrongCount, w.lastWrongAt)
  }

  function WrongDtos(s: seq<WrongQuestion>): (r: seq<WrongQuestionDto>)
    ensures |r| == |s| && forall k :: 0 <= k < |s| ==> r[k] == WrongDtoOf(s[k])
  {
    seq(|s|, k requires 0 <= k < |s| => WrongDtoOf(s[k]))
  }

  /** GetWrongQuestionsAsync: the count of the whole book, then one page of it. */
  function WrongQuestionsPage(wrongs: seq<WrongQuestion>, userId: Id, pageNumber: int, pageSize: int): (r: PagedResponse<WrongQuestionDto>)
    ensures r.totalCount == Count(wrongs, (w: WrongQuestion) => IsListedWrong(w, userId))
    ensures r.pageNumber == pageNumber && r.pageSize == pageSize
    ensures |r.items| <= r.totalCount && (pageSize >= 0 ==> |r.items| <= pageSize)
  {
    var all := UserWrongList(wrongs, userId);
    PageOfList(all, pageNumber, pageSize, LastWrongDesc);
    PagedResponse(WrongDtos(Page(all, pageNumber, pageSize)), |all|, pageNumber, pageSize)
  }

  /** GetWrongQuestionsAsync as sent to the store: refused on a negative offset or limit,
      otherwise one page. */
  function GetWrongQuestionsSpec(wrongs: seq<WrongQuestion>, userId: Id, pageNumber: int, pageSize: int): (r: Outcome<PagedResponse<WrongQuestionDto>>)
    ensures r.Thrown? <==> PagingError(pageNumber, pageSize).Some?
    ensures r.Thrown? ==> r.message == PagingError(pageNumber, pageSize).value
    ensures r.Done? ==> r.value == WrongQuestionsPage(wrongs, userId, pageNumber, pageSize)
  {
    match PagingError(pageNumber, pageSize)
    case Some(m) => Thrown(m)
    case None => Done(WrongQuestionsPage(wrongs, userId, pageNumber, pageSize))
  }

  /** Every item of a page is the DTO of one of the user's listed records, and the page runs from the most recent mistake down. */
  lemma WrongPageContents(wrongs: seq<WrongQuestion>, userId: Id, pageNumber: int, pageSize: int)
    ensures var items := WrongQuestionsPage(wrongs, userId, pageNumber, pageSize).items;
            forall k :: 0 <= k < |items| ==> DtoOfListedWrong(wrongs, userId, items[k])
    ensures var items := WrongQuestionsPage(wrongs, userId, pageNumber, pageSize).items;
            forall i, j :: 0 <= i < j < |items| ==> items[i].lastWrongAt >= items[j].lastWrongAt
  {
    var all := UserWrongList(wrongs, userId);
    var page := Page(all, pageNumber, pageSize);
    PageOfList(all, pageNumber, pageSize, LastWrongDesc);
    WrongItemsArePage(wrongs, userId, pageNumber, pageSize);
    WrongListMembers(wrongs, userId);
    WrongDtoPageFacts(wrongs, userId, page);
  }

  /** The DTO is the mapping of one of the user's listed rows. */
  ghost predicate DtoOfListedWrong(wrongs: seq<WrongQuestion>, userId: Id, d: WrongQuestionDto) {
    exists x :: x in wrongs && IsListedWrong(x, userId) && d == WrongDtoOf(x)
  }

  lemma WrongListMembers(wrongs: seq<WrongQuestion>, userId: Id)
    ensures forall x :: x in UserWrongList(wrongs, userId) ==> x in wrongs && IsListedWrong(x, userId)
  {
    var all := UserWrongList(wrongs, userId);
    forall x | x in all ensures x in wrongs && IsListedWrong(x, userId) {
      assert multiset(all)[x] > 0;
    }
  }

  lemma WrongDtoPageFacts(wrongs: seq<WrongQuestion>, userId: Id, page: seq<WrongQuestion>)
    requires forall x :: x in page ==> x in wrongs && IsListedWrong(x, userId)
    requires SortedBy(page, LastWrongDesc)
    ensures var items := WrongDtos(page);
            forall k :: 0 <= k < |items| ==> DtoOfListedWrong(wrongs, userId, items[k])
    ensures var items := WrongDtos(page);
            forall i, j :: 0 <= i < j < |items| ==> items[i].lastWrongAt >= items[j].lastWrongAt
  {
    var items := WrongDtos(page);
    forall k | 0 <= k < |items|
      ensures DtoOfListedWrong(wrongs, userId, items[k])
    {
      var x := page[k];
      assert x in page;
      assert x in wrongs && IsListedWrong(x, userId) && items[k] == WrongDtoOf(x);
      assert DtoOfListedWrong(wrongs, userId, items[k]);
    }
    assert forall i, j :: 0 <= i < j < |page| ==> LastWrongDesc(page[i], page[j]);
    assert forall i, j :: 0 <= i < j < |items| ==> items[i].lastWrongAt >= items[j].lastWrongAt;
  }

  lemma WrongItemsArePage(wrongs: seq<WrongQuestion>, userId: Id, pageNumber: int, pageSize: int)
    ensures WrongQuestionsPage(wrongs, userId, pageNumber, pageSize).items
         == WrongDtos(Page(UserWrongList(wrongs, userId), pageNumber, pageSize))
  {
  }

  /** Pages of positive size tile the book: item k of page p is entry
      offset + k of the whole ordered book, where offset = (p - 1) * size. */
  lemma WrongPageItem(wrongs: seq<WrongQuestion>, userId: Id, pageNumber: int, pageSize: int, offset: nat, k: nat)
    requires pageNumber >= 1 && pageSize >= 1 && offset == (pageNumber - 1) * pageSize
    requires k < pageSize && offset + k < |UserWrongList(wrongs, userId)|
    ensures var items := WrongQuestionsPage(wrongs, userId, pageNumber, pageSize).items;
            k < |items| && items[k] == WrongDtoOf(UserWrongList(wrongs, userId)[offset + k])
  {
    PageItem(UserWrongList(wrongs, userId), pageNumber, pageSize, k);
    WrongItemsArePage(wrongs, userId, pageNumber, pageSize);
  }

  /** The question carries a link to the knowledge point. */
  predicate LinkedTo(links: seq<QuestionKnowledgePoint>, questionId: Id, knowledgePointId: Id) {
    exists j :: 0 <= j < |links| && links[j].questionId == questionId && links[j].knowledgePointId == knowledgePointId
  }

  /** GetWrongQuestionsByKnowledgePointAsync: the user's book restricted to
      questions linked to the point, most recent mistake first, unpaged. */
  function WrongByKnowledgePoint(wrongs: seq<WrongQuestion>, links: seq<QuestionKnowledgePoint>,
                                 userId: Id, knowledgePointId: Id): (r: seq<WrongQuestion>)
    ensures forall w ::
      multiset(r)[w] == if IsListedWrong(w, userId) && LinkedTo(links, w.questionId, knowledgePointId) then multiset(wrongs)[w] else 0
    ensures SortedBy(r, LastWrongDesc)
  {
    var p := (w: WrongQuestion) => IsListedWrong(w, userId) && LinkedTo(links, w.questionId, knowledgePointId);
    var found := Filter(wrongs, p);
    forall w ensures multiset(found)[w] == if p(w) then multiset(wrongs)[w] else 0 {
      FilterMultiset(wrongs, p, w);
    }
    assert TotalPreorder(LastWrongDesc);
    SortBy(found, LastWrongDesc)
  }

  /** The per-point listing is the whole book cut down to the linked questions. */
  lemma ByKnowledgePointIsSubBook(wrongs: seq<WrongQuestion>, links: seq<QuestionKnowledgePoint>,
                                  userId: Id, knowledgePointId: Id, w: WrongQuestion)
    ensures w in WrongByKnowledgePoint(wrongs, links, userId, knowledgePointId) <==>
            w in UserWrongList(wrongs, userId) && LinkedTo(links, w.questionId, knowledgePointId)
  {
    assert w in WrongByKnowledgePoint(wrongs, links, userId, knowledgePointId) <==>
           multiset(WrongByKnowledgePoint(wrongs, links, userId, knowledgePointId))[w] > 0;
    assert w in UserWrongList(wrongs, userId) <==> multiset(UserWrongList(wrongs, userId))[w] > 0;
  }

  // ---------------------------------------------------------------------
  // Favorites
  // ---------------------------------------------------------------------

  predicate IsFavoriteOf(f: FavoriteQuestion, userId: Id, questionId: Id) {
    f.userId == userId && f.questionId == questionId && !f.isDeleted
  }

  function FavoriteIndex(favorites: seq<FavoriteQuestion>, userId: Id, questionId: Id): (r: Option<nat>)
    ensures r.Some? ==> r.value < |favorites| && IsFavoriteOf(favorites[r.value], userId, questionId)
    ensures r.Some? ==> forall j :: 0 <= j < r.value ==> !IsFavoriteOf(favorites[j], userId, questionId)
    ensures r.None? ==> forall j :: 0 <= j < |favorites| ==> !IsFavoriteOf(favorites[j], userId, questionId)
  {
    FirstIndex(favorites, (f: FavoriteQuestion) => IsFavoriteOf(f, userId, questionId))
  }

  /** The unique index on (UserId, QuestionId), over the visible rows. */
  predicate FavoritePairsUnique(favorites: seq<FavoriteQuestion>) {
    forall i, j :: 0 <= i < j < |favorites| && !favorites[i].isDeleted ==>
      !IsFavoriteOf(favorites[j], favorites[i].userId, favorites[i].questionId)
  }

  lemma FavoriteIndexAfterSet(favorites: seq<FavoriteQuestion>, i: nat, f: FavoriteQuestion, userId: Id, questionId: Id)
    requires FavoriteIndex(favorites, userId, questionId) == Some(i)
    requires IsFavoriteOf(f, userId, questionId)
    ensures FavoriteIndex(favorites[i := f], userId, questionId) == Some(i)
  {
    var s := favorites[i := f];
    assert IsFavoriteOf(s[i], userId, questionId);
    var r := FavoriteIndex(s, userId, questionId);
    assert r.Some?;
  }

  lemma FavoriteIndexAfterAppend(favorites: seq<FavoriteQuestion>, f: FavoriteQuestion, userId: Id, questionId: Id)
    requires FavoriteIndex(favorites, userId, questionId).None?
    requires IsFavoriteOf(f, userId, questionId)
    ensures FavoriteIndex(favorites + [f], userId, questionId) == Some(|favorites|)
  {
    var s := favorites + [f];
    assert IsFavoriteOf(s[|favorites|], userId, questionId);
    var r := FavoriteIndex(s, userId, questionId);
    assert r.Some?;
  }

  function NewFavorite(favorites: seq<FavoriteQuestion>, userId: Id, questionId: Id, note: Option<string>, now: Time): (f: FavoriteQuestion)
    ensures forall j :: 0 <= j < |favorites| ==> favorites[j].id != f.id
  {
    var ids := FavoriteIds(favorites);
    assert forall j :: 0 <= j < |favorites| ==> ids[j] == favorites[j].id;
    FavoriteQuestion(FreshId(ids), userId, questionId, note, now, Some(now), false)
  }

  datatype FavoriteOutcome<T> = FavoriteOutcome(result: Result<T>, favorites: seq<FavoriteQuestion>)

  /** AddFavoriteAsync on the favorites table. */
  function AddFavoriteSpec(questions: seq<Question>, favorites: seq<FavoriteQuestion>,
                           userId: Id, questionId: Id, note: Option<string>, now: Time): FavoriteOutcome<FavoriteQuestion>
  {
    if !QuestionExists(questions, questionId) then FavoriteOutcome(Failure(MsgQuestionNotFound), favorites)
    else if FavoriteIndex(favorites, userId, questionId).Some? then FavoriteOutcome(Failure(MsgAlreadyFavorite), favorites)
    else
      var f := NewFavorite(favorites, userId, questionId, note, now);
      FavoriteOutcome(Success(f, MsgFavorited), favorites + [f])
  }

  /** Favoriting fails, writing nothing, for a missing question or an existing
      favorite; otherwise it appends one fresh row carrying the note, which is
      then the pair's favorite. */
  lemma {:induction false} AddFavoriteOutcomes(questions: seq<Question>, favorites: seq<FavoriteQuestion>,
                                               userId: Id, questionId: Id, note: Option<string>, now: Time)
    ensures var o := AddFavoriteSpec(questions, favorites, userId, questionId, note, now);
            && (!QuestionExists(questions, questionId) ==> o.result == Failure(MsgQuestionNotFound) && o.favorites == favorites)
            && (QuestionExists(questions, questionId) && FavoriteIndex(favorites, userId, questionId).Some? ==>
                  o.result == Failure(MsgAlreadyFavorite) && o.favorites == favorites)
            && (o.result.Success? ==>
                  var f := o.result.data;
                  && o.favorites == favorites + [f]
                  && f.userId == userId && f.questionId == questionId && f.note == note && f.createdAt == now
                  && (forall j :: 0 <= j < |favorites| ==> favorites[j].id != f.id)
                  && FavoriteIndex(o.favorites, userId, questionId) == Some(|favorites|))
  {
    var o := AddFavoriteSpec(questions, favorites, userId, questionId, note, now);
    if o.result.Success? {
      FavoriteIndexAfterAppend(favorites, o.result.data, userId, questionId);
    }
  }

  /** Favoriting never breaks the unique index. */
  lemma {:induction false} AddFavoriteKeepsPairsUnique(questions: seq<Question>, favorites: seq<FavoriteQuestion>,
                                                       userId: Id, questionId: Id, note: Option<string>, now: Time)
    requires FavoritePairsUnique(favorites)
    ensures FavoritePairsUnique(AddFavoriteSpec(questions, favorites, userId, questionId, note, now).favorites)
  {
    var o := AddFavoriteSpec(questions, favorites, userId, questionId, note, now);
    if o.result.Success? {
      assert forall j :: 0 <= j < |favorites| ==> o.favorites[j] == favorites[j];
    }
  }

  /** RemoveFavoriteAsync: the row is deleted from the table. */
  function RemoveFavoriteSpec(favorites: seq<FavoriteQuestion>, userId: Id, questionId: Id): FavoriteOutcome<bool> {
    match FavoriteIndex(favorites, userId, questionId)
    case None => FavoriteOutcome(Failure(MsgFavoriteNotFound), favorites)
    case Some(i) => FavoriteOutcome(Success(true, MsgUnfavorited), favorites[..i] + favorites[i + 1..])
  }

  /** Unfavoriting succeeds exactly when a favorite exists and then removes
      that one row and nothing else. */
  lemma {:induction false} RemoveFavoriteDeletes(favorites: seq<FavoriteQuestion>, userId: Id, questionId: Id)
    ensures var o := RemoveFavoriteSpec(favorites, userId, questionId);
            && (o.result.Success? <==> FavoriteIndex(favorites, userId, questionId).Some?)
            && (o.result.Failure? ==> o.result.message == MsgFavoriteNotFound && o.favorites == favorites)
            && (o.result.Success? ==>
                  var i := FavoriteIndex(favorites, userId, questionId).value;
                  && |o.favorites| == |favorites| - 1
                  && multiset(o.favorites) + multiset{favorites[i]} == multiset(favorites))
  {
    match FavoriteIndex(favorites, userId, questionId)
    case None =>
    case Some(i) =>
      assert favorites == favorites[..i] + [favorites[i]] + favorites[i + 1..];
  }

  /** Under the unique index, after unfavoriting the pair is no longer a
      favorite (so it can be favorited again), and the index still holds. */
  lemma {:induction false} RemoveFavoriteClearsPair(favorites: seq<FavoriteQuestion>, userId: Id, questionId: Id)
    requires FavoritePairsUnique(favorites)
    ensures var o := RemoveFavoriteSpec(favorites, userId, questionId);
            FavoritePairsUnique(o.favorites) && FavoriteIndex(o.favorites, userId, questionId).None?
  {
    match FavoriteIndex(favorites, userId, questionId)
    case None =>
    case Some(i) =>
      var s := favorites[..i] + favorites[i + 1..];
      assert forall j :: 0 <= j < |s| ==> s[j] == if j < i then favorites[j] else favorites[j + 1];
  }

  /** UpdateFavoriteNoteAsync: Note and UpdatedAt of the caller's favorite. */
  function UpdateFavoriteNoteSpec(favorites: seq<FavoriteQuestion>, userId: Id, questionId: Id,
                                  note: Option<string>, now: Time): FavoriteOutcome<FavoriteQuestion> {
    match FavoriteIndex(favorites, userId, questionId)
    case None => FavoriteOutcome(Failure(MsgFavoriteNotFound), favorites)
    case Some(i) =>
      var f := favorites[i].(note := note, updatedAt := Some(now));
      FavoriteOutcome(Success(f, MsgFavoriteNoteUpdated), favorites[i := f])
  }

  /** A note update changes only the caller's favorite, and in it only Note and
      UpdatedAt; a second update overwrites the first. */
  lemma {:induction false} UpdateFavoriteNoteOnly(favorites: seq<FavoriteQuestion>, userId: Id, questionId: Id,
                                                  n1: Option<string>, n2: Option<string>, t1: Time, t2: Time)
    ensures var o := UpdateFavoriteNoteSpec(favorites, userId, questionId, n1, t1);
            && (o.result.Success? <==> FavoriteIndex(favorites, userId, questionId).Some?)
            && (o.result.Failure? ==> o.result.message == MsgFavoriteNotFound && o.favorites == favorites)
            && (o.result.Success? ==>
                  var i := FavoriteIndex(favorites, userId, questionId).value;
                  && |o.favorites| == |favorites|
                  && o.favorites[i] == favorites[i].(note := n1, updatedAt := Some(t1))
                  && (forall k :: 0 <= k < |favorites| && k != i ==> o.favorites[k] == favorites[k])
                  && UpdateFavoriteNoteSpec(o.favorites, userId, questionId, n2, t2)
                     == UpdateFavoriteNoteSpec(favorites, userId, questionId, n2, t2))
  {
    match FavoriteIndex(favorites, userId, questionId)
    case None =>
    case Some(i) =>
      var s := favorites[i := favorites[i].(note := n1, updatedAt := Some(t1))];
      FavoriteIndexAfterSet(favorites, i, s[i], userId, questionId);
      assert s[i := s[i].(note := n2, updatedAt := Some(t2))] == favorites[i := favorites[i].(note := n2, updatedAt := Some(t2))];
  }

  predicate CreatedDesc(a: FavoriteQuestion, b: FavoriteQuestion) {
    a.createdAt >= b.createdAt
  }

  /** The user's favorites, newest first. */
  function UserFavoriteList(favorites: seq<FavoriteQuestion>, userId: Id): (r: seq<FavoriteQuestion>)
    ensures forall f :: multiset(r)[f] == if f.userId == userId && !f.isDeleted then multiset(favorites)[f] else 0
    ensures |r| == Count(favorites, (f: FavoriteQuestion) => f.userId == userId && !f.isDeleted)
    ensures SortedBy(r, CreatedDesc)
  {
    var p := (f: FavoriteQuestion) => f.userId == userId && !f.isDeleted;
    var found := Filter(favorites, p);
    forall f ensures multiset(found)[f] == if p(f) then multiset(favorites)[f] else 0 {
      FilterMultiset(favorites, p, f);
    }
    assert TotalPreorder(CreatedDesc);
    SortBy(found, CreatedDesc)
  }

  /** FavoriteQuestionDto without its Question part. */
  datatype FavoriteQuestionDto = FavoriteQuestionDto(id: Id, questionId: Id, note: Option<string>, createdAt: Time)

  function FavoriteDtoOf(f: FavoriteQuestion): FavoriteQuestionDto {
    FavoriteQuestionDto(f.id, f.questionId, f.note, f.createdAt)
  }

  function FavoriteDtos(s: seq<FavoriteQuestion>): (r: seq<FavoriteQuestionDto>)
    ensures |r| == |s| && forall k :: 0 <= k < |s| ==> r[k] == FavoriteDtoOf(s[k])
  {
    seq(|s|, k requires 0 <= k < |s| => FavoriteDtoOf(s[k]))
  }

  /** GetFavoritesAsync: the count of all the user's favorites, then one page. */
  function FavoritesPage(favorites: seq<FavoriteQuestion>, userId: Id, pageNumber: int, pageSize: int): (r: PagedResponse<FavoriteQuestionDto>)
    ensures r.totalCount == Count(favorites, (f: FavoriteQuestion) => f.userId == userId && !f.isDeleted)
    ensures r.pageNumber == pageNumber && r.pageSize == pageSize
    ensures |r.items| <= r.totalCount && (pageSize >= 0 ==> |r.items| <= pageSize)
  {
    var all := UserFavoriteList(favorites, userId);
    PageOfList(all, pageNumber, pageSize, CreatedDesc);
    PagedResponse(FavoriteDtos(Page(all, pageNumber, pageSize)), |all|, pageNumber, pageSize)
  }

  /** GetFavoriteQuestionsAsync as sent to the store: refused on a negative offset or limit,
      otherwise one page. */
  function GetFavoritesSpec(favorites: seq<FavoriteQuestion>, userId: Id, pageNumber: int, pageSize: int): (r: Outcome<PagedResponse<FavoriteQuestionDto>>)
    ensures r.Thrown? <==> PagingError(pageNumber, pageSize).Some?
    ensures r.Thrown? ==> r.message == PagingError(pageNumber, pageSize).value
    ensures r.Done? ==> r.value == FavoritesPage(favorites, userId, pageNumber, pageSize)
  {
    match PagingError(pageNumber, pageSize)
    case Some(m) => Thrown(m)
    case None => Done(FavoritesPage(favorites, userId, pageNumber, pageSize))
  }

  /** Every item of a page is the DTO of one of the user's favorites, newest first. */
  lemma FavoritePageContents(favorites: seq<FavoriteQuestion>, userId: Id, pageNumber: int, pageSize: int)
    ensures var items := FavoritesPage(favorites, userId, pageNumber, pageSize).items;
            forall k :: 0 <= k < |items| ==> DtoOfListedFavorite(favorites, userId, items[k])
    ensures var items := FavoritesPage(favorites, userId, pageNumber, pageSize).items;
            forall i, j :: 0 <= i < j < |items| ==> items[i].createdAt >= items[j].createdAt
  {
    var all := UserFavoriteList(favorites, userId);
    var page := Page(all, pageNumber, pageSize);
    PageOfList(all, pageNumber, pageSize, CreatedDesc);
    FavoriteItemsArePage(favorites, userId, pageNumber, pageSize);
    FavoriteListMembers(favorites, userId);
    FavoriteDtoPageFacts(favorites, userId, page);
  }

  /** The DTO is the mapping of one of the user's listed rows. */
  ghost predicate DtoOfListedFavorite(favorites: seq<FavoriteQuestion>, userId: Id, d: FavoriteQuestionDto) {
    exists x :: x in favorites && x.userId == userId && !x.isDeleted && d == FavoriteDtoOf(x)
  }

  lemma FavoriteListMembers(favorites: seq<FavoriteQuestion>, userId: Id)
    ensures forall x :: x in UserFavoriteList(favorites, userId) ==> x in favorites && x.userId == userId && !x.isDeleted
  {
    var all := UserFavoriteList(favorites, userId);
    forall x | x in all ensures x in favorites && x.userId == userId && !x.isDeleted {
      assert multiset(all)[x] > 0;
    }
  }

  lemma FavoriteDtoPageFacts(favorites: seq<FavoriteQuestion>, userId: Id, page: seq<FavoriteQuestion>)
    requires forall x :: x in page ==> x in favorites && x.userId == userId && !x.isDeleted
    requires SortedBy(page, CreatedDesc)
    ensures var items := FavoriteDtos(page);
            forall k :: 0 <= k < |items| ==> DtoOfListedFavorite(favorites, userId, items[k])
    ensures var items := FavoriteDtos(page);
            forall i, j :: 0 <= i < j < |items| ==> items[i].createdAt >= items[j].createdAt
  {
    var items := FavoriteDtos(page);
    forall k | 0 <= k < |items|
      ensures DtoOfListedFavorite(favorites, userId, items[k])
    {
      var x := page[k];
      assert x in page;
      assert x in favorites && x.userId == userId && !x.isDeleted && items[k] == FavoriteDtoOf(x);
      assert DtoOfListedFavorite(favorites, userId, items[k]);
    }
    assert forall i, j :: 0 <= i < j < |page| ==> CreatedDesc(page[i], page[j]);
    assert forall i, j :: 0 <= i < j < |items| ==> items[i].createdAt >= items[j].createdAt;
  }



  // ---------------------------------------------------------------------
  // Notes
  // ---------------------------------------------------------------------

  predicate IsNoteOf(n: QuestionNote, userId: Id, questionId: Id) {
    n.userId == userId && n.questionId == questionId && !n.isDeleted
  }

  /** The user's note on the question. */
  function NoteIndex(notes: seq<QuestionNote>, userId: Id, questionId: Id): (r: Option<nat>)
    ensures r.Some? ==> r.value < |notes| && IsNoteOf(notes[r.value], userId, questionId)
    ensures r.Some? ==> forall j :: 0 <= j < r.value ==> !IsNoteOf(notes[j], userId, questionId)
    ensures r.None? ==> forall j :: 0 <= j < |notes| ==> !IsNoteOf(notes[j], userId, questionId)
  {
    FirstIndex(notes, (n: QuestionNote) => IsNoteOf(n, userId, questionId))
  }

  predicate IsOwnedNote(n: QuestionNote, userId: Id, noteId: Id) {
    n.id == noteId && n.userId == userId && !n.isDeleted
  }

  /** The note with this id, if the caller owns it. */
  function OwnedNoteIndex(notes: seq<QuestionNote>, userId: Id, noteId: Id): (r: Option<nat>)
    ensures r.Some? ==> r.value < |notes| && IsOwnedNote(notes[r.value], userId, noteId)
    ensures r.None? ==> forall j :: 0 <= j < |notes| ==> !IsOwnedNote(notes[j], userId, noteId)
  {
    FirstIndex(notes, (n: QuestionNote) => IsOwnedNote(n, userId, noteId))
  }

  /** At most one visible note per (user, question). */
  predicate NotePairsUnique(notes: seq<QuestionNote>) {
    forall i, j :: 0 <= i < j < |notes| && !notes[i].isDeleted ==>
      !IsNoteOf(notes[j], notes[i].userId, notes[i].questionId)
  }

  /** QuestionNoteDto without its Question part. */
  datatype QuestionNoteDto = QuestionNoteDto(id: Id, questionId: Id, content: string, createdAt: Time, updatedAt: Time)

  /** MapToQuestionNoteDto: a note never updated shows its creation time as UpdatedAt. */
  function NoteDtoOf(n: QuestionNote): QuestionNoteDto {
    QuestionNoteDto(n.id, n.questionId, n.content, n.createdAt, if n.updatedAt.Some? then n.updatedAt.value else n.createdAt)
  }

  /** The DTO's UpdatedAt is the note's UpdatedAt when set, and its CreatedAt
      otherwise; it never precedes creation when the stored times do not. */
  lemma NoteDtoUpdatedAt(n: QuestionNote)
    ensures n.updatedAt.Some? ==> NoteDtoOf(n).updatedAt == n.updatedAt.value
    ensures n.updatedAt.None? ==> NoteDtoOf(n).updatedAt == n.createdAt
    ensures (n.updatedAt.None? || n.updatedAt.value >= n.createdAt) ==> NoteDtoOf(n).updatedAt >= NoteDtoOf(n).createdAt
  {
  }

  function NewNote(notes: seq<QuestionNote>, userId: Id, questionId: Id, content: string, now: Time): (n: QuestionNote)
    ensures forall j :: 0 <= j < |notes| ==> notes[j].id != n.id
  {
    var ids := NoteIds(notes);
    assert forall j :: 0 <= j < |notes| ==> ids[j] == notes[j].id;
    QuestionNote(FreshId(ids), userId, questionId, content, now, Some(now), false)
  }

  lemma NoteIndexAfterAppend(notes: seq<QuestionNote>, n: QuestionNote, userId: Id, questionId: Id)
    requires NoteIndex(notes, userId, questionId).None?
    requires IsNoteOf(n, userId, questionId)
    ensures NoteIndex(notes + [n], userId, questionId) == Some(|notes|)
  {
    var s := notes + [n];
    assert IsNoteOf(s[|notes|], userId, questionId);
    var r := NoteIndex(s, userId, questionId);
    assert r.Some?;
  }

  datatype NoteOutcome<T> = NoteOutcome(result: Result<T>, notes: seq<QuestionNote>)

  /** CreateNoteAsync on the notes table. */
  function CreateNoteSpec(questions: seq<Question>, notes: seq<QuestionNote>, userId: Id, questionId: Id,
                          content: string, now: Time): NoteOutcome<QuestionNoteDto>
  {
    if !QuestionExists(questions, questionId) then NoteOutcome(Failure(MsgQuestionNotFound), notes)
    else if NoteIndex(notes, userId, questionId).Some? then NoteOutcome(Failure(MsgNoteExists), notes)
    else
      var n := NewNote(notes, userId, questionId, content, now);
      NoteOutcome(Success(NoteDtoOf(n), MsgNoteCreated), notes + [n])
  }

  /** GetNoteByQuestionIdAsync. */
  function GetNoteByQuestionId(notes: seq<QuestionNote>, userId: Id, questionId: Id): (r: Result<QuestionNoteDto>)
    ensures r.Failure? <==> forall j :: 0 <= j < |notes| ==> !IsNoteOf(notes[j], userId, questionId)
    ensures r.Failure? ==> r.message == MsgNoteNotFound
    ensures r.Success? ==> exists j :: 0 <= j < |notes| && IsNoteOf(notes[j], userId, questionId) && r.data == NoteDtoOf(notes[j])
  {
    match NoteIndex(notes, userId, questionId)
    case None => Failure(MsgNoteNotFound)
    case Some(i) => Success(NoteDtoOf(notes[i]), "")
  }

  /** Creating a note fails, writing nothing, for a missing question or when
      the user already has a note on it; otherwise the note is appended and is
      what a later lookup for the pair returns, with UpdatedAt = CreatedAt = now. */
  lemma {:induction false} CreateNoteOutcomes(questions: seq<Question>, notes: seq<QuestionNote>, userId: Id, questionId: Id,
                                              content: string, now: Time)
    ensures var o := CreateNoteSpec(questions, notes, userId, questionId, content, now);
            && (!QuestionExists(questions, questionId) ==> o.result == Failure(MsgQuestionNotFound) && o.notes == notes)
            && (QuestionExists(questions, questionId) && NoteIndex(notes, userId, questionId).Some? ==>
                  o.result == Failure(MsgNoteExists) && o.notes == notes)
            && (o.result.Success? ==>
                  && |o.notes| == |notes| + 1 && o.notes[..|notes|] == notes
                  && GetNoteByQuestionId(o.notes, userId, questionId) == Success(o.result.data, "")
                  && o.result.data.content == content
                  && o.result.data.createdAt == now && o.result.data.updatedAt == now)
  {
    var o := CreateNoteSpec(questions, notes, userId, questionId, content, now);
    if o.result.Success? {
      NoteIndexAfterAppend(notes, NewNote(notes, userId, questionId, content, now), userId, questionId);
      assert o.notes[..|notes|] == notes;
    }
  }

  /** UpdateNoteAsync: matched on note id and owner. */
  function UpdateNoteSpec(notes: seq<QuestionNote>, userId: Id, noteId: Id, content: string, now: Time): NoteOutcome<QuestionNoteDto> {
    match OwnedNoteIndex(notes, userId, noteId)
    case None => NoteOutcome(Failure(MsgNoteNotFound), notes)
    case Some(i) =>
      var n := notes[i].(content := content, updatedAt := Some(now));
      NoteOutcome(Success(NoteDtoOf(n), MsgNoteUpdated), notes[i := n])
  }

  /** DeleteNoteAsync: matched on note id and owner; the row is deleted. */
  function DeleteNoteSpec(notes: seq<QuestionNote>, userId: Id, noteId: Id): NoteOutcome<bool> {
    match OwnedNoteIndex(notes, userId, noteId)
    case None => NoteOutcome(Failure(MsgNoteNotFound), notes)
    case Some(i) => NoteOutcome(Success(true, MsgNoteDeleted), notes[..i] + notes[i + 1..])
  }

  /** Updating a note changes only the caller's own note with that id, and in
      it only the content and UpdatedAt; another user's note reads as not
      found and every note of another user keeps its place and value. */
  lemma {:induction false} UpdateNoteOwnerOnly(notes: seq<QuestionNote>, userId: Id, noteId: Id, content: string, now: Time)
    ensures var o := UpdateNoteSpec(notes, userId, noteId, content, now);
            && (o.result.Success? <==> exists j :: 0 <= j < |notes| && IsOwnedNote(notes[j], userId, noteId))
            && (o.result.Failure? ==> o.result.message == MsgNoteNotFound && o.notes == notes)
            && |o.notes| == |notes|
            && (forall k :: 0 <= k < |notes| && notes[k].userId != userId ==> o.notes[k] == notes[k])
            && (o.result.Success? ==>
                  var i := OwnedNoteIndex(notes, userId, noteId).value;
                  && o.notes[i] == notes[i].(content := content, updatedAt := Some(now))
                  && (forall k :: 0 <= k < |notes| && k != i ==> o.notes[k] == notes[k])
                  && o.result.data.content == content && o.result.data.updatedAt == now)
  {
  }

  /** Deleting a note removes only the caller's own note with that id; every
      note of another user survives, each as often as before. */
  lemma {:induction false} DeleteNoteOwnerOnly(notes: seq<QuestionNote>, userId: Id, noteId: Id)
    ensures var o := DeleteNoteSpec(notes, userId, noteId);
            && (o.result.Success? <==> exists j :: 0 <= j < |notes| && IsOwnedNote(notes[j], userId, noteId))
            && (o.result.Failure? ==> o.result.message == MsgNoteNotFound && o.notes == notes)
            && (forall n: QuestionNote :: n.userId != userId ==> multiset(o.notes)[n] == multiset(notes)[n])
            && (o.result.Success? ==>
                  var i := OwnedNoteIndex(notes, userId, noteId).value;
                  |o.notes| == |notes| - 1 && multiset(o.notes) + multiset{notes[i]} == multiset(notes))
  {
    match OwnedNoteIndex(notes, userId, noteId)
    case None =>
    case Some(i) =>
      assert notes == notes[..i] + [notes[i]] + notes[i + 1..];
  }

  /** Creating a note keeps at most one note per (user, question). */
  lemma CreateNoteKeepsOnePerPair(questions: seq<Question>, notes: seq<QuestionNote>, userId: Id,
                                  questionId: Id, content: string, now: Time)
    requires NotePairsUnique(notes)
    ensures NotePairsUnique(CreateNoteSpec(questions, notes, userId, questionId, content, now).notes)
  {
    var c := CreateNoteSpec(questions, notes, userId, questionId, content, now);
    if c.result.Success? {
      assert forall j :: 0 <= j < |notes| ==> c.notes[j] == notes[j];
    }
  }

  /** Updating a note's content keeps at most one note per (user, question). */
  lemma UpdateNoteKeepsOnePerPair(notes: seq<QuestionNote>, userId: Id, noteId: Id, content: string, now: Time)
    requires NotePairsUnique(notes)
    ensures NotePairsUnique(UpdateNoteSpec(notes, userId, noteId, content, now).notes)
  {
  }

  /** Deleting a note keeps at most one note per (user, question). */
  lemma DeleteNoteKeepsOnePerPair(notes: seq<QuestionNote>, userId: Id, noteId: Id)
    requires NotePairsUnique(notes)
    ensures NotePairsUnique(DeleteNoteSpec(notes, userId, noteId).notes)
  {
    match OwnedNoteIndex(notes, userId, noteId)
    case None =>
    case Some(i) =>
      var s := notes[..i] + notes[i + 1..];
      assert forall j :: 0 <= j < |s| ==> s[j] == if j < i then notes[j] else notes[j + 1];
  }

  // Listing

  /** OrderByDescending on a nullable time, as PostgreSQL sorts it: a missing
      UpdatedAt comes first (NULLS FIRST under DESC). */
  predicate UpdatedDesc(a: QuestionNote, b: QuestionNote) {
    a.updatedAt.None? || (b.updatedAt.Some? && a.updatedAt.value >= b.updatedAt.value)
  }

  lemma UpdatedDescIsPreorder()
    ensures TotalPreorder(UpdatedDesc)
  {
  }

  /** The user's notes, most recently updated first. */
  function UserNoteList(notes: seq<QuestionNote>, userId: Id): (r: seq<QuestionNote>)
    ensures forall n :: multiset(r)[n] == if n.userId == userId && !n.isDeleted then multiset(notes)[n] else 0
    ensures |r| == Count(notes, (n: QuestionNote) => n.userId == userId && !n.isDeleted)
    ensures SortedBy(r, UpdatedDesc)
  {
    var p := (n: QuestionNote) => n.userId == userId && !n.isDeleted;
    var found := Filter(notes, p);
    forall n ensures multiset(found)[n] == if p(n) then multiset(notes)[n] else 0 {
      FilterMultiset(notes, p, n);
    }
    UpdatedDescIsPreorder();
    SortBy(found, UpdatedDesc)
  }

  /** Notes never updated come before every updated one, and the updated ones
      run from the latest down. */
  lemma UnstampedNotesFirst(notes: seq<QuestionNote>, userId: Id)
    ensures var r := UserNoteList(notes, userId);
      forall i, j :: 0 <= i < j < |r| && r[j].updatedAt.None? ==> r[i].updatedAt.None?
    ensures var r := UserNoteList(notes, userId);
      forall i, j :: 0 <= i < j < |r| && r[i].updatedAt.Some? ==> r[j].updatedAt.Some? && r[i].updatedAt.value >= r[j].updatedAt.value
  {
    var r := UserNoteList(notes, userId);
    assert forall i, j :: 0 <= i < j < |r| ==> UpdatedDesc(r[i], r[j]);
  }

  function NoteDtos(s: seq<QuestionNote>): (r: seq<QuestionNoteDto>)
    ensures |r| == |s| && forall k :: 0 <= k < |s| ==> r[k] == NoteDtoOf(s[k])
  {
    seq(|s|, k requires 0 <= k < |s| => NoteDtoOf(s[k]))
  }

  /** GetUserNotesAsync: the count of all the user's notes, then one page. */
  function UserNotesPage(notes: seq<QuestionNote>, userId: Id, pageNumber: int, pageSize: int): (r: PagedResponse<QuestionNoteDto>)
    ensures r.totalCount == Count(notes, (n: QuestionNote) => n.userId == userId && !n.isDeleted)
    ensures r.pageNumber == pageNumber && r.pageSize == pageSize
    ensures |r.items| <= r.totalCount && (pageSize >= 0 ==> |r.items| <= pageSize)
  {
    var all := UserNoteList(notes, userId);
    PageOfList(all, pageNumber, pageSize, UpdatedDesc);
    PagedResponse(NoteDtos(Page(all, pageNumber, pageSize)), |all|, pageNumber, pageSize)
  }

  /** GetUserNotesAsync as sent to the store: refused on a negative offset or limit,
      otherwise one page. */
  function GetUserNotesSpec(notes: seq<QuestionNote>, userId: Id, pageNumber: int, pageSize: int): (r: Outcome<PagedResponse<QuestionNoteDto>>)
    ensures r.Thrown? <==> PagingError(pageNumber, pageSize).Some?
    ensures r.Thrown? ==> r.message == PagingError(pageNumber, pageSize).value
    ensures r.Done? ==> r.value == UserNotesPage(notes, userId, pageNumber, pageSize)
  {
    match PagingError(pageNumber, pageSize)
    case Some(m) => Thrown(m)
    case None => Done(UserNotesPage(notes, userId, pageNumber, pageSize))
  }

  /** Every item of a page is the DTO of one of the user's notes. */
  lemma NotePageContents(notes: seq<QuestionNote>, userId: Id, pageNumber: int, pageSize: int)
    ensures var items := UserNotesPage(notes, userId, pageNumber, pageSize).items;
            forall k :: 0 <= k < |items| ==> DtoOfListedNote(notes, userId, items[k])
  {
    var all := UserNoteList(notes, userId);
    var page := Page(all, pageNumber, pageSize);
    PageOfList(all, pageNumber, pageSize, UpdatedDesc);
    NoteItemsArePage(notes, userId, pageNumber, pageSize);
    NoteListMembers(notes, userId);
    NoteDtoPageFacts(notes, userId, page);
  }

  /** The DTO is the mapping of one of the user's listed rows. */
  ghost predicate DtoOfListedNote(notes: seq<QuestionNote>, userId: Id, d: QuestionNoteDto) {
    exists x :: x in notes && x.userId == userId && !x.isDeleted && d == NoteDtoOf(x)
  }

  lemma NoteListMembers(notes: seq<QuestionNote>, userId: Id)
    ensures forall x :: x in UserNoteList(notes, userId) ==> x in notes && x.userId == userId && !x.isDeleted
  {
    var all := UserNoteList(notes, userId);
    forall x | x in all ensures x in notes && x.userId == userId && !x.isDeleted {
      assert multiset(all)[x] > 0;
    }
  }

  lemma NoteDtoPageFacts(notes: seq<QuestionNote>, userId: Id, page: seq<QuestionNote>)
    requires forall x :: x in page ==> x in notes && x.userId == userId && !x.isDeleted
    ensures var items := NoteDtos(page);
            forall k :: 0 <= k < |items| ==> DtoOfListedNote(notes, userId, items[k])
  {
    var items := NoteDtos(page);
    forall k | 0 <= k < |items|
      ensures DtoOfListedNote(notes, userId, items[k])
    {
      var x := page[k];
      assert x in page;
      assert x in notes && x.userId == userId && !x.isDeleted && items[k] == NoteDtoOf(x);
      assert DtoOfListedNote(notes, userId, items[k]);
    }
  }


  /** Every note row carries an UpdatedAt. */
  predicate NotesStamped(notes: seq<QuestionNote>) {
    forall j :: 0 <= j < |notes| ==> notes[j].updatedAt.Some?
  }

  /** The service stamps UpdatedAt on every note it creates or updates, so the
      stamp survives creating, updating and deleting notes. */
  lemma CreateNoteKeepsStamped(questions: seq<Question>, notes: seq<QuestionNote>, userId: Id,
                               questionId: Id, content: string, now: Time)
    requires NotesStamped(notes)
    ensures NotesStamped(CreateNoteSpec(questions, notes, userId, questionId, content, now).notes)
  {
  }

  lemma UpdateNoteKeepsStamped(notes: seq<QuestionNote>, userId: Id, noteId: Id, content: string, now: Time)
    requires NotesStamped(notes)
    ensures NotesStamped(UpdateNoteSpec(notes, userId, noteId, content, now).notes)
  {
  }

  lemma DeleteNoteKeepsStamped(notes: seq<QuestionNote>, userId: Id, noteId: Id)
    requires NotesStamped(notes)
    ensures NotesStamped(DeleteNoteSpec(notes, userId, noteId).notes)
  {
    match OwnedNoteIndex(notes, userId, noteId)
    case None =>
    case Some(i) =>
      var s := notes[..i] + notes[i + 1..];
      assert forall j :: 0 <= j < |s| ==> s[j] == if j < i then notes[j] else notes[j + 1];
  }

  /** On stamped notes the page of DTOs is in descending UpdatedAt: the
      fallback to CreatedAt never reorders it. */
  lemma StampedNotesListInOrder(notes: seq<QuestionNote>, userId: Id, pageNumber: int, pageSize: int)
    requires NotesStamped(notes)
    ensures var items := UserNotesPage(notes, userId, pageNumber, pageSize).items;
            forall i, j :: 0 <= i < j < |items| ==> items[i].updatedAt >= items[j].updatedAt
  {
    var all := UserNoteList(notes, userId);
    var page := Page(all, pageNumber, pageSize);
    PageOfList(all, pageNumber, pageSize, UpdatedDesc);
    NoteItemsArePage(notes, userId, pageNumber, pageSize);
    NoteListMembers(notes, userId);
    StampedDtosInOrder(notes, page);
  }

  lemma StampedDtosInOrder(notes: seq<QuestionNote>, page: seq<QuestionNote>)
    requires NotesStamped(notes)
    requires forall x :: x in page ==> x in notes
    requires SortedBy(page, UpdatedDesc)
    ensures var items := NoteDtos(page);
            forall i, j :: 0 <= i < j < |items| ==> items[i].updatedAt >= items[j].updatedAt
  {
    forall k | 0 <= k < |page| ensures page[k].updatedAt.Some? {
      assert page[k] in notes;
    }
    assert forall i, j :: 0 <= i < j < |page| ==> UpdatedDesc(page[i], page[j]);
  }


  lemma NoteItemsArePage(notes: seq<QuestionNote>, userId: Id, pageNumber: int, pageSize: int)
    ensures UserNotesPage(notes, userId, pageNumber, pageSize).items
         == NoteDtos(Page(UserNoteList(notes, userId), pageNumber, pageSize))
  {
  }

  // ---------------------------------------------------------------------
  // The service methods on the database
  // ---------------------------------------------------------------------

  /** AddWrongQuestionAsync. */
  method AddWrongQuestion(db: Database, userId: Id, questionId: Id, now: Time) returns (r: Result<WrongQuestion>)
    modifies db`wrongQuestions
    ensures var o := AddWrongQuestionSpec(db.questions, old(db.wrongQuestions), userId, questionId, now);
            r == o.result && db.wrongQuestions == o.wrongs
  {
    if !QuestionExists(db.questions, questionId) {
      return Failure(MsgQuestionNotFound);
    }
    var index := WrongIndex(db.wrongQuestions, userId, questionId);
    if index.Some? {
      var existing := db.wrongQuestions[index.value];
      if existing.isRemoved {
        existing := existing.(isRemoved := false);
      }
      existing := existing.(wrongCount := existing.wrongCount + 1);
      existing := existing.(lastWrongAt := now, updatedAt := Some(now));
      db.wrongQuestions := db.wrongQuestions[index.value := existing];
      return Success(existing, MsgWrongUpdated);
    }
    var created := NewWrong(db.wrongQuestions, userId, questionId, now);
    db.wrongQuestions := db.wrongQuestions + [created];
    return Success(created, MsgWrongAdded);
  }

  /** RemoveWrongQuestionAsync. */
  method RemoveWrongQuestion(db: Database, userId: Id, questionId: Id, now: Time) returns (r: Result<bool>)
    modifies db`wrongQuestions
    ensures var o := RemoveWrongQuestionSpec(old(db.wrongQuestions), userId, questionId, now);
            r == o.result && db.wrongQuestions == o.wrongs
  {
    var index := WrongIndex(db.wrongQuestions, userId, questionId);
    if index.None? {
      return Failure(MsgWrongNotFound);
    }
    var w := db.wrongQuestions[index.value];
    db.wrongQuestions := db.wrongQuestions[index.value := w.(isRemoved := true, updatedAt := Some(now))];
    return Success(true, MsgWrongRemoved);
  }

  /** The foreach loop that maps rows to DTOs. */
  method MapWrongDtos(items: seq<WrongQuestion>) returns (dtos: seq<WrongQuestionDto>)
    ensures dtos == WrongDtos(items)
  {
    dtos := [];
    for k := 0 to |items|
      invariant dtos == WrongDtos(items[..k])
    {
      assert WrongDtos(items[..k + 1]) == WrongDtos(items[..k]) + [WrongDtoOf(items[k])];
      dtos := dtos + [WrongDtoOf(items[k])];
    }
    assert items[..|items|] == items;
  }

  /** GetWrongQuestionsAsync. */
  method GetWrongQuestions(db: Database, userId: Id, pageNumber: int, pageSize: int) returns (r: Outcome<PagedResponse<WrongQuestionDto>>)
    ensures r == GetWrongQuestionsSpec(db.wrongQuestions, userId, pageNumber, pageSize)
  {
    var query := UserWrongList(db.wrongQuestions, userId);
    var totalCount := |query|;
    var refused := PagingError(pageNumber, pageSize);
    if refused.Some? {
      return Thrown(refused.value);
    }
    var dtos := MapWrongDtos(Page(query, pageNumber, pageSize));
    WrongItemsArePage(db.wrongQuestions, userId, pageNumber, pageSize);
    return Done(PagedResponse(dtos, totalCount, pageNumber, pageSize));
  }

  /** GetWrongQuestionsByKnowledgePointAsync. */
  method GetWrongQuestionsByKnowledgePoint(db: Database, userId: Id, knowledgePointId: Id) returns (r: seq<WrongQuestionDto>)
    ensures r == WrongDtos(WrongByKnowledgePoint(db.wrongQuestions, db.questionKnowledgePoints, userId, knowledgePointId))
  {
    r := MapWrongDtos(WrongByKnowledgePoint(db.wrongQuestions, db.questionKnowledgePoints, userId, knowledgePointId));
  }

  /** AddFavoriteAsync. */
  method AddFavorite(db: Database, userId: Id, questionId: Id, note: Option<string>, now: Time) returns (r: Result<FavoriteQuestion>)
    modifies db`favoriteQuestions
    ensures var o := AddFavoriteSpec(db.questions, old(db.favoriteQuestions), userId, questionId, note, now);
            r == o.result && db.favoriteQuestions == o.favorites
  {
    if !QuestionExists(db.questions, questionId) {
      return Failure(MsgQuestionNotFound);
    }
    var existing := FavoriteIndex(db.favoriteQuestions, userId, questionId);
    if existing.Some? {
      return Failure(MsgAlreadyFavorite);
    }
    var favorite := NewFavorite(db.favoriteQuestions, userId, questionId, note, now);
    db.favoriteQuestions := db.favoriteQuestions + [favorite];
    return Success(favorite, MsgFavorited);
  }

  /** RemoveFavoriteAsync. */
  method RemoveFavorite(db: Database, userId: Id, questionId: Id) returns (r: Result<bool>)
    modifies db`favoriteQuestions
    ensures var o := RemoveFavoriteSpec(old(db.favoriteQuestions), userId, questionId);
            r == o.result && db.favoriteQuestions == o.favorites
  {
    var index := FavoriteIndex(db.favoriteQuestions, userId, questionId);
    if index.None? {
      return Failure(MsgFavoriteNotFound);
    }
    db.favoriteQuestions := db.favoriteQuestions[..index.value] + db.favoriteQuestions[index.value + 1..];
    return Success(true, MsgUnfavorited);
  }

  /** UpdateFavoriteNoteAsync. */
  method UpdateFavoriteNote(db: Database, userId: Id, questionId: Id, note: Option<string>, now: Time)
    returns (r: Result<FavoriteQuestion>)
    modifies db`favoriteQuestions
    ensures var o := UpdateFavoriteNoteSpec(old(db.favoriteQuestions), userId, questionId, note, now);
            r == o.result && db.favoriteQuestions == o.favorites
  {
    var index := FavoriteIndex(db.favoriteQuestions, userId, questionId);
    if index.None? {
      return Failure(MsgFavoriteNotFound);
    }
    var favorite := db.favoriteQuestions[index.value].(note := note, updatedAt := Some(now));
    db.favoriteQuestions := db.favoriteQuestions[index.value := favorite];
    return Success(favorite, MsgFavoriteNoteUpdated);
  }

  method MapFavoriteDtos(items: seq<FavoriteQuestion>) returns (dtos: seq<FavoriteQuestionDto>)
    ensures dtos == FavoriteDtos(items)
  {
    dtos := [];
    for k := 0 to |items|
      invariant dtos == FavoriteDtos(items[..k])
    {
      assert FavoriteDtos(items[..k + 1]) == FavoriteDtos(items[..k]) + [FavoriteDtoOf(items[k])];
      dtos := dtos + [FavoriteDtoOf(items[k])];
    }
    assert items[..|items|] == items;
  }

  /** GetFavoritesAsync. */
  method GetFavorites(db: Database, userId: Id, pageNumber: int, pageSize: int) returns (r: Outcome<PagedResponse<FavoriteQuestionDto>>)
    ensures r == GetFavoritesSpec(db.favoriteQuestions, userId, pageNumber, pageSize)
  {
    var query := UserFavoriteList(db.favoriteQuestions, userId);
    var totalCount := |query|;
    var refused := PagingError(pageNumber, pageSize);
    if refused.Some? {
      return Thrown(refused.value);
    }
    var dtos := MapFavoriteDtos(Page(query, pageNumber, pageSize));
    FavoriteItemsArePage(db.favoriteQuestions, userId, pageNumber, pageSize);
    return Done(PagedResponse(dtos, totalCount, pageNumber, pageSize));
  }

  lemma FavoriteItemsArePage(favorites: seq<FavoriteQuestion>, userId: Id, pageNumber: int, pageSize: int)
    ensures FavoritesPage(favorites, userId, pageNumber, pageSize).items
         == FavoriteDtos(Page(UserFavoriteList(favorites, userId), pageNumber, pageSize))
  {
  }

  /** CreateNoteAsync. */
  method CreateNote(db: Database, userId: Id, questionId: Id, content: string, now: Time) returns (r: Result<QuestionNoteDto>)
    modifies db`questionNotes
    ensures var o := CreateNoteSpec(db.questions, old(db.questionNotes), userId, questionId, content, now);
            r == o.result && db.questionNotes == o.notes
  {
    if !QuestionExists(db.questions, questionId) {
      return Failure(MsgQuestionNotFound);
    }
    var existing := NoteIndex(db.questionNotes, userId, questionId);
    if existing.Some? {
      return Failure(MsgNoteExists);
    }
    var note := NewNote(db.questionNotes, userId, questionId, content, now);
    db.questionNotes := db.questionNotes + [note];
    return Success(NoteDtoOf(note), MsgNoteCreated);
  }

  /** UpdateNoteAsync. */
  method UpdateNote(db: Database, userId: Id, noteId: Id, content: string, now: Time) returns (r: Result<QuestionNoteDto>)
    modifies db`questionNotes
    ensures var o := UpdateNoteSpec(old(db.questionNotes), userId, noteId, content, now);
            r == o.result && db.questionNotes == o.notes
  {
    var index := OwnedNoteIndex(db.questionNotes, userId, noteId);
    if index.None? {
      return Failure(MsgNoteNotFound);
    }
    var note := db.questionNotes[index.value].(content := content, updatedAt := Some(now));
    db.questionNotes := db.questionNotes[index.value := note];
    return Success(NoteDtoOf(note), MsgNoteUpdated);
  }

  /** DeleteNoteAsync. */
  method DeleteNote(db: Database, userId: Id, noteId: Id) returns (r: Result<bool>)
    modifies db`questionNotes
    ensures var o := DeleteNoteSpec(old(db.questionNotes), userId, noteId);
            r == o.result && db.questionNotes == o.notes
  {
    var index := OwnedNoteIndex(db.questionNotes, userId, noteId);
    if index.None? {
      return Failure(MsgNoteNotFound);
    }
    db.questionNotes := db.questionNotes[..index.value] + db.questionNotes[index.value + 1..];
    return Success(true, MsgNoteDeleted);
  }

  method MapNoteDtos(items: seq<QuestionNote>) returns (dtos: seq<QuestionNoteDto>)
    ensures dtos == NoteDtos(items)
  {
    dtos := [];
    for k := 0 to |items|
      invariant dtos == NoteDtos(items[..k])
    {
      assert NoteDtos(items[..k + 1]) == NoteDtos(items[..k]) + [NoteDtoOf(items[k])];
      dtos := dtos + [NoteDtoOf(items[k])];
    }
    assert items[..|items|] == items;
  }

  /** GetUserNotesAsync. */
  method GetUserNotes(db: Database, userId: Id, pageNumber: int, pageSize: int) returns (r: Outcome<PagedResponse<QuestionNoteDto>>)
    ensures r == GetUserNotesSpec(db.questionNotes, userId, pageNumber, pageSize)
  {
    var query := UserNoteList(db.questionNotes, userId);
    var totalCount := |query|;
    var refused := PagingError(pageNumber, pageSize);
    if refused.Some? {
      return Thrown(refused.value);
    }
    var dtos := MapNoteDtos(Page(query, pageNumber, pageSize));
    NoteItemsArePage(db.questionNotes, userId, pageNumber, pageSize);
    return Done(PagedResponse(dtos, totalCount, pageNumber, pageSize));
  }
}
