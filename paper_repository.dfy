/** The paper repository: the paper / question join rows of a paper, and the
    operations that add, remove and edit them while keeping the paper's
    TotalScore equal to the sum of its rows' scores. */
module PaperRepository {
  import opened Common
  import opened Domain
  import opened Store

  // ---------------------------------------------------------------------
  // Lookups and the invariants of the two tables
  // ---------------------------------------------------------------------

  predicate IsVisiblePaper(p: Paper, id: Id) {
    p.id == id && !p.isDeleted
  }

  /** FindAsync on Papers under the soft-delete filter: the paper's position. */
  function PaperIndex(papers: seq<Paper>, id: Id): (r: Option<nat>)
    ensures r.Some? ==> r.value < |papers| && IsVisiblePaper(papers[r.value], id)
    ensures r.None? <==> forall j :: 0 <= j < |papers| ==> !IsVisiblePaper(papers[j], id)
  {
    FirstIndex(papers, (p: Paper) => IsVisiblePaper(p, id))
  }

  /** The primary key of Papers. */
  predicate PaperIdsUnique(papers: seq<Paper>) {
    forall i, j :: 0 <= i < j < |papers| ==> papers[i].id != papers[j].id
  }

  function OfPaper(paperId: Id): PaperQuestion -> bool {
    (pq: PaperQuestion) => pq.paperId == paperId
  }

  /** Paper.PaperQuestions: the rows Where(pq => pq.PaperId == paperId) reads, in table order. */
  function PaperLinks(paperQuestions: seq<PaperQuestion>, paperId: Id): (r: seq<PaperQuestion>)
    ensures forall pq :: pq in r <==> pq in paperQuestions && pq.paperId == paperId
  {
    Filter(paperQuestions, OfPaper(paperId))
  }

  predicate DistinctKeys(a: PaperQuestion, b: PaperQuestion) {
    a.paperId != b.paperId || a.questionId != b.questionId
  }

  /** The composite primary key (PaperId, QuestionId) of PaperQuestions. */
  predicate LinkKeysUnique(paperQuestions: seq<PaperQuestion>) {
    Pairwise(paperQuestions, DistinctKeys)
  }

  predicate IsLink(pq: PaperQuestion, paperId: Id, questionId: Id) {
    pq.paperId == paperId && pq.questionId == questionId
  }

  /** FirstOrDefaultAsync(pq => pq.PaperId == paperId && pq.QuestionId == questionId). */
  function LinkIndex(paperQuestions: seq<PaperQuestion>, paperId: Id, questionId: Id): (r: Option<nat>)
    ensures r.Some? ==> r.value < |paperQuestions| && IsLink(paperQuestions[r.value], paperId, questionId)
    ensures r.None? <==> forall j :: 0 <= j < |paperQuestions| ==> !IsLink(paperQuestions[j], paperId, questionId)
  {
    FirstIndex(paperQuestions, (pq: PaperQuestion) => IsLink(pq, paperId, questionId))
  }

  function LinkScore(pq: PaperQuestion): int {
    pq.score
  }

  /** SumAsync(pq => pq.Score) over the rows of one paper. */
  function LinkedTotal(paperQuestions: seq<PaperQuestion>, paperId: Id): int {
    SumOf(PaperLinks(paperQuestions, paperId), LinkScore)
  }

  /** What the repository is there to keep: every paper's TotalScore is the
      sum of the scores of its rows. */
  predicate TotalsConsistent(papers: seq<Paper>, paperQuestions: seq<PaperQuestion>) {
    forall i :: 0 <= i < |papers| && !papers[i].isDeleted ==> papers[i].totalScore == LinkedTotal(paperQuestions, papers[i].id)
  }

  // ---------------------------------------------------------------------
  // Projections
  // ---------------------------------------------------------------------

  /** GetQuestionCountInPaperAsync. */
  function QuestionCountInPaper(paperQuestions: seq<PaperQuestion>, paperId: Id): nat {
    Count(paperQuestions, OfPaper(paperId))
  }

  predicate QuestionIdsDistinct(links: seq<PaperQuestion>) {
    forall i, j :: 0 <= i < j < |links| ==> links[i].questionId != links[j].questionId
  }

  function LinkedQuestionIds(links: seq<PaperQuestion>): set<Id> {
    set pq | pq in links :: pq.questionId
  }

  /** ToDictionary(x => x.QuestionId, x => x.Score); None where ToDictionary
      throws on a repeated key. */
  function ScoreMap(links: seq<PaperQuestion>): Option<map<Id, int>>
    decreases |links|
  {
    if links == [] then Some(map[])
    else
      var last := links[|links| - 1];
      match ScoreMap(links[..|links| - 1])
      case None => None
      case Some(m) => if last.questionId in m then None else Some(m[last.questionId := last.score])
  }

  /** The dictionary exists exactly when no question id repeats. */
  lemma {:induction false} ScoreMapDefined(links: seq<PaperQuestion>)
    ensures ScoreMap(links).Some? <==> QuestionIdsDistinct(links)
    decreases |links|
  {
    if links != [] {
      var init, last := links[..|links| - 1], links[|links| - 1];
      ScoreMapDefined(init);
      ScoreMapEntries(init);
      if QuestionIdsDistinct(links) {
        forall i, j | 0 <= i < j < |init| ensures init[i].questionId != init[j].questionId {
          assert init[i] == links[i] && init[j] == links[j];
        }
      }
      match ScoreMap(init)
      case None =>
      case Some(m) =>
        if last.questionId in m {
          var k :| 0 <= k < |init| && init[k].questionId == last.questionId;
          assert links[k] == init[k];
        } else {
          LastKeyFresh(links, m);
        }
    }
  }

  lemma LastKeyFresh(links: seq<PaperQuestion>, m: map<Id, int>)
    requires links != [] && QuestionIdsDistinct(links[..|links| - 1])
    requires links[|links| - 1].questionId !in m
    requires forall pq :: pq in links[..|links| - 1] ==> pq.questionId in m
    ensures QuestionIdsDistinct(links)
  {
    var init := links[..|links| - 1];
    forall i, j | 0 <= i < j < |links| ensures links[i].questionId != links[j].questionId {
      assert links[i] == init[i];
      if j < |init| {
        assert links[j] == init[j];
      } else {
        assert init[i] in init;
      }
    }
  }

  /** A dictionary that exists holds one entry per row, mapping the row's
      question to the row's score, and no other entry. */
  lemma {:induction false} ScoreMapEntries(links: seq<PaperQuestion>)
    ensures ScoreMap(links).Some? ==>
              var m := ScoreMap(links).value;
              && |m| == |links|
              && (forall pq :: pq in links ==> pq.questionId in m && m[pq.questionId] == pq.score)
              && (forall id :: id in m ==> exists k :: 0 <= k < |links| && links[k].questionId == id)
    decreases |links|
  {
    if links != [] {
      var init, last := links[..|links| - 1], links[|links| - 1];
      assert links == init + [last];
      ScoreMapEntries(init);
      match ScoreMap(init)
      case None =>
      case Some(m) =>
        if last.questionId !in m {
          var m' := m[last.questionId := last.score];
          forall id | id in m' ensures exists k :: 0 <= k < |links| && links[k].questionId == id {
            if id != last.questionId {
              var k :| 0 <= k < |init| && init[k].questionId == id;
              assert links[k] == init[k];
            } else {
              assert links[|links| - 1].questionId == id;
            }
          }
        }
    }
  }

  /** The dictionary's keys are the rows' question ids. */
  lemma ScoreMapKeys(links: seq<PaperQuestion>)
    requires ScoreMap(links).Some?
    ensures ScoreMap(links).value.Keys == LinkedQuestionIds(links)
  {
    ScoreMapEntries(links);
    var m := ScoreMap(links).value;
    forall id | id in m ensures id in LinkedQuestionIds(links) {
      var k :| 0 <= k < |links| && links[k].questionId == id;
      assert links[k] in links;
    }
  }

  /** GetQuestionScoresAsync. */
  function GetQuestionScores(paperQuestions: seq<PaperQuestion>, paperId: Id): Option<map<Id, int>> {
    ScoreMap(PaperLinks(paperQuestions, paperId))
  }

  /** Under the composite key the dictionary never throws: it has one entry
      per row of the paper, each mapping the question to its score there. */
  lemma QuestionScoresOnePerLink(paperQuestions: seq<PaperQuestion>, paperId: Id)
    requires LinkKeysUnique(paperQuestions)
    ensures var r := GetQuestionScores(paperQuestions, paperId);
            && r.Some?
            && |r.value| == QuestionCountInPaper(paperQuestions, paperId)
            && r.value.Keys == (set pq | pq in paperQuestions && pq.paperId == paperId :: pq.questionId)
            && forall pq :: pq in paperQuestions && pq.paperId == paperId ==> r.value[pq.questionId] == pq.score
  {
    var links := PaperLinks(paperQuestions, paperId);
    FilterPairwise(paperQuestions, OfPaper(paperId), DistinctKeys);
    forall i, j | 0 <= i < j < |links| ensures links[i].questionId != links[j].questionId {
      assert DistinctKeys(links[i], links[j]);
      assert links[i] in links && links[j] in links;
    }
    ScoreMapDefined(links);
    ScoreMapEntries(links);
    ScoreMapKeys(links);
  }

  // ---------------------------------------------------------------------
  // The four operations on the rows
  // ---------------------------------------------------------------------

  /** What a repository operation hands back: its bool, or the exception
      SaveChangesAsync raises when two rows would share a key (nothing is saved). */
  datatype Reply = Returned(ok: bool) | KeyConflict

  datatype LinkOutcome = LinkOutcome(reply: Reply, papers: seq<Paper>, paperQuestions: seq<PaperQuestion>)

  function Retotal(p: Paper, total: int, now: Time): Paper {
    p.(totalScore := total, updatedAt := Some(now))
  }

  /** AddQuestionsToPaperAsync with the total read after the rows are in. */
  function AddQuestionsToPaperSpec(papers: seq<Paper>, paperQuestions: seq<PaperQuestion>, paperId: Id,
                                   added: seq<PaperQuestion>, now: Time): LinkOutcome
  {
    match PaperIndex(papers, paperId)
    case None => LinkOutcome(Returned(false), papers, paperQuestions)
    case Some(i) =>
      var links := paperQuestions + added;
      if !LinkKeysUnique(links) then LinkOutcome(KeyConflict, papers, paperQuestions)
      else LinkOutcome(Returned(true), papers[i := Retotal(papers[i], LinkedTotal(links, paperId), now)], links)
  }

  /** AddQuestionsToPaperAsync as written: SumAsync runs before
      SaveChangesAsync, so the total is that of the rows already stored. */
  function AddQuestionsToPaperAsWritten(papers: seq<Paper>, paperQuestions: seq<PaperQuestion>, paperId: Id,
                                        added: seq<PaperQuestion>, now: Time): LinkOutcome
  {
    match PaperIndex(papers, paperId)
    case None => LinkOutcome(Returned(false), papers, paperQuestions)
    case Some(i) =>
      var links := paperQuestions + added;
      if !LinkKeysUnique(links) then LinkOutcome(KeyConflict, papers, paperQuestions)
      else LinkOutcome(Returned(true), papers[i := Retotal(papers[i], LinkedTotal(paperQuestions, paperId), now)], links)
  }

  /** RemoveQuestionFromPaperAsync with the total read after the removal. */
  function RemoveQuestionFromPaperSpec(papers: seq<Paper>, paperQuestions: seq<PaperQuestion>,
                                       paperId: Id, questionId: Id, now: Time): LinkOutcome
  {
    match LinkIndex(paperQuestions, paperId, questionId)
    case None => LinkOutcome(Returned(false), papers, paperQuestions)
    case Some(k) =>
      var links := paperQuestions[..k] + paperQuestions[k + 1..];
      match PaperIndex(papers, paperId)
      case None => LinkOutcome(Returned(true), papers, links)
      case Some(i) => LinkOutcome(Returned(true), papers[i := Retotal(papers[i], LinkedTotal(links, paperId), now)], links)
  }

  /** RemoveQuestionFromPaperAsync as written: the total still counts the removed row. */
  function RemoveQuestionFromPaperAsWritten(papers: seq<Paper>, paperQuestions: seq<PaperQuestion>,
                                            paperId: Id, questionId: Id, now: Time): LinkOutcome
  {
    match LinkIndex(paperQuestions, paperId, questionId)
    case None => LinkOutcome(Returned(false), papers, paperQuestions)
    case Some(k) =>
      var links := paperQuestions[..k] + paperQuestions[k + 1..];
      match PaperIndex(papers, paperId)
      case None => LinkOutcome(Returned(true), papers, links)
      case Some(i) => LinkOutcome(Returned(true), papers[i := Retotal(papers[i], LinkedTotal(paperQuestions, paperId), now)], links)
  }

  /** UpdateQuestionOrderAsync: only the row's order and the paper's UpdatedAt change. */
  function UpdateQuestionOrderSpec(papers: seq<Paper>, paperQuestions: seq<PaperQuestion>,
                                   paperId: Id, questionId: Id, newOrder: int, now: Time): LinkOutcome
  {
    match LinkIndex(paperQuestions, paperId, questionId)
    case None => LinkOutcome(Returned(false), papers, paperQuestions)
    case Some(k) =>
      var links := paperQuestions[k := paperQuestions[k].(questionOrder := newOrder)];
      match PaperIndex(papers, paperId)
      case None => LinkOutcome(Returned(true), papers, links)
      case Some(i) => LinkOutcome(Returned(true), papers[i := papers[i].(updatedAt := Some(now))], links)
  }

  /** UpdateQuestionScoreAsync with the total read after the new score is in. */
  function UpdateQuestionScoreSpec(papers: seq<Paper>, paperQuestions: seq<PaperQuestion>,
                                   paperId: Id, questionId: Id, newScore: int, now: Time): LinkOutcome
  {
    match LinkIndex(paperQuestions, paperId, questionId)
    case None => LinkOutcome(Returned(false), papers, paperQuestions)
    case Some(k) =>
      var links := paperQuestions[k := paperQuestions[k].(score := newScore)];
      match PaperIndex(papers, paperId)
      case None => LinkOutcome(Returned(true), papers, links)
      case Some(i) => LinkOutcome(Returned(true), papers[i := Retotal(papers[i], LinkedTotal(links, paperId), now)], links)
  }

  /** UpdateQuestionScoreAsync as written: the total is read with the old score. */
  function UpdateQuestionScoreAsWritten(papers: seq<Paper>, paperQuestions: seq<PaperQuestion>,
                                        paperId: Id, questionId: Id, newScore: int, now: Time): LinkOutcome
  {
    match LinkIndex(paperQuestions, paperId, questionId)
    case None => LinkOutcome(Returned(false), papers, paperQuestions)
    case Some(k) =>
      var links := paperQuestions[k := paperQuestions[k].(score := newScore)];
      match PaperIndex(papers, paperId)
      case None => LinkOutcome(Returned(true), papers, links)
      case Some(i) => LinkOutcome(Returned(true), papers[i := Retotal(papers[i], LinkedTotal(paperQuestions, paperId), now)], links)
  }

  // ---------------------------------------------------------------------
  // What the operations promise
  // ---------------------------------------------------------------------

  /** Adding to a missing paper, or adding a row whose key is taken, changes nothing. */
  lemma AddQuestionsRejections(papers: seq<Paper>, paperQuestions: seq<PaperQuestion>, paperId: Id,
                               added: seq<PaperQuestion>, now: Time)
    ensures var o := AddQuestionsToPaperSpec(papers, paperQuestions, paperId, added, now);
            && (PaperIndex(papers, paperId).None? ==> o == LinkOutcome(Returned(false), papers, paperQuestions))
            && (o.reply != Returned(true) ==> o.papers == papers && o.paperQuestions == paperQuestions)
            && (o.reply == KeyConflict <==> PaperIndex(papers, paperId).Some? && !LinkKeysUnique(paperQuestions + added))
  {
  }

  /** Otherwise the rows are appended as given, only the paper's row changes,
      and its total grows by the scores of the added rows that belong to it. */
  lemma AddQuestionsAppends(papers: seq<Paper>, paperQuestions: seq<PaperQuestion>, paperId: Id,
                            added: seq<PaperQuestion>, now: Time)
    requires PaperIndex(papers, paperId).Some? && LinkKeysUnique(paperQuestions + added)
    ensures var o := AddQuestionsToPaperSpec(papers, paperQuestions, paperId, added, now);
            var i := PaperIndex(papers, paperId).value;
            && o.reply == Returned(true)
            && o.paperQuestions == paperQuestions + added
            && o.papers == papers[i := papers[i].(totalScore := o.papers[i].totalScore, updatedAt := Some(now))]
            && o.papers[i].totalScore == LinkedTotal(paperQuestions, paperId) + SumOf(PaperLinks(added, paperId), LinkScore)
  {
    SumOfFilterAppend(paperQuestions, added, OfPaper(paperId), LinkScore);
  }

  /** Adding rows that belong to the paper adds them to its row count. */
  lemma AddQuestionsCount(papers: seq<Paper>, paperQuestions: seq<PaperQuestion>, paperId: Id,
                          added: seq<PaperQuestion>, now: Time)
    requires forall pq :: pq in added ==> pq.paperId == paperId
    ensures var o := AddQuestionsToPaperSpec(papers, paperQuestions, paperId, added, now);
            o.reply == Returned(true) ==>
              QuestionCountInPaper(o.paperQuestions, paperId) == QuestionCountInPaper(paperQuestions, paperId) + |added|
  {
    CountOwnRows(paperQuestions, added, paperId);
  }

  lemma CountOwnRows(paperQuestions: seq<PaperQuestion>, added: seq<PaperQuestion>, paperId: Id)
    requires forall pq :: pq in added ==> pq.paperId == paperId
    ensures QuestionCountInPaper(paperQuestions + added, paperId) == QuestionCountInPaper(paperQuestions, paperId) + |added|
  {
    FilterAppend(paperQuestions, added, OfPaper(paperId));
    FilterAllKept(added, OfPaper(paperId));
  }

  lemma {:induction false} FilterAllKept(s: seq<PaperQuestion>, p: PaperQuestion -> bool)
    requires forall x :: x in s ==> p(x)
    ensures Filter(s, p) == s
    decreases |s|
  {
    if s != [] {
      FilterAllKept(s[..|s| - 1], p);
      assert s[|s| - 1] in s;
      assert s == s[..|s| - 1] + [s[|s| - 1]];
    }
  }

  /** Remove, UpdateOrder and UpdateScore report false and change nothing
      when the (paper, question) row does not exist. */
  lemma LinkOperationsNeedLink(papers: seq<Paper>, paperQuestions: seq<PaperQuestion>,
                               paperId: Id, questionId: Id, value: int, now: Time)
    requires forall j :: 0 <= j < |paperQuestions| ==> !IsLink(paperQuestions[j], paperId, questionId)
    ensures RemoveQuestionFromPaperSpec(papers, paperQuestions, paperId, questionId, now)
         == LinkOutcome(Returned(false), papers, paperQuestions)
    ensures UpdateQuestionOrderSpec(papers, paperQuestions, paperId, questionId, value, now)
         == LinkOutcome(Returned(false), papers, paperQuestions)
    ensures UpdateQuestionScoreSpec(papers, paperQuestions, paperId, questionId, value, now)
         == LinkOutcome(Returned(false), papers, paperQuestions)
  {
  }

  /** Removing an existing row deletes exactly that row and lowers the
      paper's row count by one. */
  lemma RemoveQuestionOutcome(papers: seq<Paper>, paperQuestions: seq<PaperQuestion>,
                              paperId: Id, questionId: Id, now: Time)
    requires LinkIndex(paperQuestions, paperId, questionId).Some?
    ensures var k := LinkIndex(paperQuestions, paperId, questionId).value;
            var o := RemoveQuestionFromPaperSpec(papers, paperQuestions, paperId, questionId, now);
            && o.reply == Returned(true)
            && o.paperQuestions == paperQuestions[..k] + paperQuestions[k + 1..]
            && multiset(o.paperQuestions) + multiset{paperQuestions[k]} == multiset(paperQuestions)
            && QuestionCountInPaper(o.paperQuestions, paperId) + 1 == QuestionCountInPaper(paperQuestions, paperId)
  {
    var k := LinkIndex(paperQuestions, paperId, questionId).value;
    RemoveRowCounts(paperQuestions, k, paperId);
  }

  lemma RemoveRowCounts(paperQuestions: seq<PaperQuestion>, k: nat, paperId: Id)
    requires k < |paperQuestions| && paperQuestions[k].paperId == paperId
    ensures var rest := paperQuestions[..k] + paperQuestions[k + 1..];
            && multiset(rest) + multiset{paperQuestions[k]} == multiset(paperQuestions)
            && QuestionCountInPaper(rest, paperId) + 1 == QuestionCountInPaper(paperQuestions, paperId)
  {
    assert paperQuestions == paperQuestions[..k] + [paperQuestions[k]] + paperQuestions[k + 1..];
    FilterAround(paperQuestions, k, paperQuestions[k], OfPaper(paperId));
  }

  /** Removing an existing row lowers the paper's total by the row's score. */
  lemma RemoveQuestionTotal(papers: seq<Paper>, paperQuestions: seq<PaperQuestion>,
                            paperId: Id, questionId: Id, now: Time)
    requires LinkIndex(paperQuestions, paperId, questionId).Some? && PaperIndex(papers, paperId).Some?
    ensures var k := LinkIndex(paperQuestions, paperId, questionId).value;
            var o := RemoveQuestionFromPaperSpec(papers, paperQuestions, paperId, questionId, now);
            o.papers[PaperIndex(papers, paperId).value].totalScore == LinkedTotal(paperQuestions, paperId) - paperQuestions[k].score
  {
    var k := LinkIndex(paperQuestions, paperId, questionId).value;
    SumOfFilterAt(paperQuestions, k, paperQuestions[k], OfPaper(paperId), LinkScore);
  }

  /** Changing a row's order touches that row's QuestionOrder and the paper's
      UpdatedAt, and never a TotalScore. */
  lemma UpdateOrderOnlyOrder(papers: seq<Paper>, paperQuestions: seq<PaperQuestion>,
                             paperId: Id, questionId: Id, newOrder: int, now: Time)
    requires LinkIndex(paperQuestions, paperId, questionId).Some?
    ensures var k := LinkIndex(paperQuestions, paperId, questionId).value;
            var o := UpdateQuestionOrderSpec(papers, paperQuestions, paperId, questionId, newOrder, now);
            && o.reply == Returned(true)
            && |o.paperQuestions| == |paperQuestions|
            && o.paperQuestions[k] == paperQuestions[k].(questionOrder := newOrder)
            && (forall j :: 0 <= j < |paperQuestions| && j != k ==> o.paperQuestions[j] == paperQuestions[j])
            && |o.papers| == |papers|
            && (forall j :: 0 <= j < |papers| ==> o.papers[j] == papers[j].(updatedAt := o.papers[j].updatedAt))
  {
  }

  /** Changing a row's score moves the paper's total by the difference. */
  lemma UpdateScoreOutcome(papers: seq<Paper>, paperQuestions: seq<PaperQuestion>,
                           paperId: Id, questionId: Id, newScore: int, now: Time)
    requires LinkIndex(paperQuestions, paperId, questionId).Some?
    ensures var k := LinkIndex(paperQuestions, paperId, questionId).value;
            var o := UpdateQuestionScoreSpec(papers, paperQuestions, paperId, questionId, newScore, now);
            && o.reply == Returned(true)
            && o.paperQuestions == paperQuestions[k := paperQuestions[k].(score := newScore)]
            && (PaperIndex(papers, paperId).Some? ==>
                  o.papers[PaperIndex(papers, paperId).value].totalScore
                    == LinkedTotal(paperQuestions, paperId) - paperQuestions[k].score + newScore)
  {
    var k := LinkIndex(paperQuestions, paperId, questionId).value;
    SumOfFilterAt(paperQuestions, k, paperQuestions[k].(score := newScore), OfPaper(paperId), LinkScore);
  }

  // The key and total invariants

  /** A row of another paper, or no row, leaves a paper's total alone. */
  lemma OtherPaperTotals(paperQuestions: seq<PaperQuestion>, k: nat, x: PaperQuestion, id: Id)
    requires k < |paperQuestions| && paperQuestions[k].paperId != id && x.paperId != id
    ensures LinkedTotal(paperQuestions[..k] + paperQuestions[k + 1..], id) == LinkedTotal(paperQuestions, id)
    ensures LinkedTotal(paperQuestions[k := x], id) == LinkedTotal(paperQuestions, id)
  {
    SumOfFilterAt(paperQuestions, k, x, OfPaper(id), LinkScore);
  }

  lemma AddKeepsTotals(papers: seq<Paper>, paperQuestions: seq<PaperQuestion>, paperId: Id,
                       added: seq<PaperQuestion>, now: Time)
    requires TotalsConsistent(papers, paperQuestions) && PaperIdsUnique(papers)
    requires forall pq :: pq in added ==> pq.paperId == paperId
    ensures var o := AddQuestionsToPaperSpec(papers, paperQuestions, paperId, added, now);
            TotalsConsistent(o.papers, o.paperQuestions)
  {
    var links := paperQuestions + added;
    forall j | 0 <= j < |papers| && papers[j].id != paperId
      ensures LinkedTotal(links, papers[j].id) == LinkedTotal(paperQuestions, papers[j].id)
    {
      FilterNone(added, OfPaper(papers[j].id));
      SumOfFilterAppend(paperQuestions, added, OfPaper(papers[j].id), LinkScore);
    }
    RetotalKeepsTotals(papers, paperQuestions, links, paperId, now);
  }

  /** Re-totalling the paper whose rows changed keeps every total right,
      provided no other paper's rows changed. */
  lemma RetotalKeepsTotals(papers: seq<Paper>, paperQuestions: seq<PaperQuestion>, links: seq<PaperQuestion>,
                           paperId: Id, now: Time)
    requires TotalsConsistent(papers, paperQuestions) && PaperIdsUnique(papers)
    requires forall j :: 0 <= j < |papers| && papers[j].id != paperId ==>
               LinkedTotal(links, papers[j].id) == LinkedTotal(paperQuestions, papers[j].id)
    ensures match PaperIndex(papers, paperId)
            case None => TotalsConsistent(papers, links)
            case Some(i) => TotalsConsistent(papers[i := Retotal(papers[i], LinkedTotal(links, paperId), now)], links)
  {
  }

  lemma RemoveKeepsTotals(papers: seq<Paper>, paperQuestions: seq<PaperQuestion>,
                          paperId: Id, questionId: Id, now: Time)
    requires TotalsConsistent(papers, paperQuestions) && PaperIdsUnique(papers)
    ensures var o := RemoveQuestionFromPaperSpec(papers, paperQuestions, paperId, questionId, now);
            TotalsConsistent(o.papers, o.paperQuestions)
  {
    match LinkIndex(paperQuestions, paperId, questionId)
    case None =>
    case Some(k) =>
      var links := paperQuestions[..k] + paperQuestions[k + 1..];
      forall j | 0 <= j < |papers| && papers[j].id != paperId
        ensures LinkedTotal(links, papers[j].id) == LinkedTotal(paperQuestions, papers[j].id)
      {
        OtherPaperTotals(paperQuestions, k, paperQuestions[k], papers[j].id);
      }
      RetotalKeepsTotals(papers, paperQuestions, links, paperId, now);
  }

  lemma UpdateOrderKeepsTotals(papers: seq<Paper>, paperQuestions: seq<PaperQuestion>,
                               paperId: Id, questionId: Id, newOrder: int, now: Time)
    requires TotalsConsistent(papers, paperQuestions)
    ensures var o := UpdateQuestionOrderSpec(papers, paperQuestions, paperId, questionId, newOrder, now);
            TotalsConsistent(o.papers, o.paperQuestions)
  {
    match LinkIndex(paperQuestions, paperId, questionId)
    case None =>
    case Some(k) =>
      var x := paperQuestions[k].(questionOrder := newOrder);
      var links := paperQuestions[k := x];
      ReorderKeepsLinkedTotals(paperQuestions, k, x);
      RestampKeepsTotals(papers, paperQuestions, links, paperId, now);
  }

  /** Changing a row without touching its paper or score keeps every paper's sum. */
  lemma ReorderKeepsLinkedTotals(paperQuestions: seq<PaperQuestion>, k: nat, x: PaperQuestion)
    requires k < |paperQuestions| && x.paperId == paperQuestions[k].paperId && x.score == paperQuestions[k].score
    ensures forall id :: LinkedTotal(paperQuestions[k := x], id) == LinkedTotal(paperQuestions, id)
  {
    forall id ensures LinkedTotal(paperQuestions[k := x], id) == LinkedTotal(paperQuestions, id) {
      SumOfFilterAt(paperQuestions, k, x, OfPaper(id), LinkScore);
    }
  }

  lemma RestampKeepsTotals(papers: seq<Paper>, paperQuestions: seq<PaperQuestion>, links: seq<PaperQuestion>,
                           paperId: Id, now: Time)
    requires TotalsConsistent(papers, paperQuestions)
    requires forall id :: LinkedTotal(links, id) == LinkedTotal(paperQuestions, id)
    ensures match PaperIndex(papers, paperId)
            case None => TotalsConsistent(papers, links)
            case Some(i) => TotalsConsistent(papers[i := papers[i].(updatedAt := Some(now))], links)
  {
  }

  lemma UpdateScoreKeepsTotals(papers: seq<Paper>, paperQuestions: seq<PaperQuestion>,
                               paperId: Id, questionId: Id, newScore: int, now: Time)
    requires TotalsConsistent(papers, paperQuestions) && PaperIdsUnique(papers)
    ensures var o := UpdateQuestionScoreSpec(papers, paperQuestions, paperId, questionId, newScore, now);
            TotalsConsistent(o.papers, o.paperQuestions)
  {
    match LinkIndex(paperQuestions, paperId, questionId)
    case None =>
    case Some(k) =>
      var links := paperQuestions[k := paperQuestions[k].(score := newScore)];
      forall j | 0 <= j < |papers| && papers[j].id != paperId
        ensures LinkedTotal(links, papers[j].id) == LinkedTotal(paperQuestions, papers[j].id)
      {
        OtherPaperTotals(paperQuestions, k, paperQuestions[k].(score := newScore), papers[j].id);
      }
      RetotalKeepsTotals(papers, paperQuestions, links, paperId, now);
  }

  /** No operation lets two rows share a key: Add refuses to save then, and
      the others remove a row or change only non-key fields. */
  lemma LinkOperationsKeepKeys(papers: seq<Paper>, paperQuestions: seq<PaperQuestion>, paperId: Id,
                               added: seq<PaperQuestion>, questionId: Id, value: int, now: Time)
    requires LinkKeysUnique(paperQuestions)
    ensures LinkKeysUnique(AddQuestionsToPaperSpec(papers, paperQuestions, paperId, added, now).paperQuestions)
    ensures LinkKeysUnique(RemoveQuestionFromPaperSpec(papers, paperQuestions, paperId, questionId, now).paperQuestions)
    ensures LinkKeysUnique(UpdateQuestionOrderSpec(papers, paperQuestions, paperId, questionId, value, now).paperQuestions)
    ensures LinkKeysUnique(UpdateQuestionScoreSpec(papers, paperQuestions, paperId, questionId, value, now).paperQuestions)
  {
    match LinkIndex(paperQuestions, paperId, questionId)
    case None =>
    case Some(k) =>
      PairwiseRemoveAt(paperQuestions, k, DistinctKeys);
      SameKeyReplace(paperQuestions, k, paperQuestions[k].(questionOrder := value));
      SameKeyReplace(paperQuestions, k, paperQuestions[k].(score := value));
  }

  lemma SameKeyReplace(paperQuestions: seq<PaperQuestion>, k: nat, x: PaperQuestion)
    requires LinkKeysUnique(paperQuestions) && k < |paperQuestions|
    requires x.paperId == paperQuestions[k].paperId && x.questionId == paperQuestions[k].questionId
    ensures LinkKeysUnique(paperQuestions[k := x])
  {
    var s := paperQuestions[k := x];
    forall i, j | 0 <= i < j < |s| ensures DistinctKeys(s[i], s[j]) {
      assert DistinctKeys(paperQuestions[i], paperQuestions[j]);
    }
  }

  // The stale totals of the code as written

  /** As written, the three totals are those of the rows as stored before the call. */
  lemma AsWrittenTotalsAreStale(papers: seq<Paper>, paperQuestions: seq<PaperQuestion>, paperId: Id,
                                added: seq<PaperQuestion>, questionId: Id, newScore: int, now: Time)
    requires PaperIndex(papers, paperId).Some?
    ensures var i := PaperIndex(papers, paperId).value;
            var a := AddQuestionsToPaperAsWritten(papers, paperQuestions, paperId, added, now);
            a.reply == Returned(true) ==> a.papers[i].totalScore == LinkedTotal(paperQuestions, paperId)
    ensures var i := PaperIndex(papers, paperId).value;
            var r := RemoveQuestionFromPaperAsWritten(papers, paperQuestions, paperId, questionId, now);
            r.reply == Returned(true) ==> r.papers[i].totalScore == LinkedTotal(paperQuestions, paperId)
    ensures var i := PaperIndex(papers, paperId).value;
            var u := UpdateQuestionScoreAsWritten(papers, paperQuestions, paperId, questionId, newScore, now);
            u.reply == Returned(true) ==> u.papers[i].totalScore == LinkedTotal(paperQuestions, paperId)
  {
  }

  function SamplePaper(): Paper {
    Paper(1, "期中", None, 0, 60, 9, 0, None, false)
  }

  /** Adding one row of score 5 to an empty paper leaves its total at 0. */
  lemma AddAsWrittenMissesNewRow()
    ensures var o := AddQuestionsToPaperAsWritten([SamplePaper()], [], 1, [PaperQuestion(1, 7, 1, 5)], 100);
            && o.reply == Returned(true)
            && o.papers[0].totalScore == 0
            && LinkedTotal(o.paperQuestions, 1) == 5
  {
    var o := AddQuestionsToPaperAsWritten([SamplePaper()], [], 1, [PaperQuestion(1, 7, 1, 5)], 100);
    assert o.paperQuestions == [PaperQuestion(1, 7, 1, 5)];
    assert PaperLinks(o.paperQuestions, 1) == [PaperQuestion(1, 7, 1, 5)] by {
      FilterAllKept(o.paperQuestions, OfPaper(1));
    }
  }

  /** Removing the only row, of score 5, leaves the total at 5. */
  lemma RemoveAsWrittenKeepsRemovedRow()
    ensures var o := RemoveQuestionFromPaperAsWritten([SamplePaper().(totalScore := 5)], [PaperQuestion(1, 7, 1, 5)], 1, 7, 100);
            && o.reply == Returned(true)
            && o.papers[0].totalScore == 5
            && LinkedTotal(o.paperQuestions, 1) == 0
  {
    var pqs := [PaperQuestion(1, 7, 1, 5)];
    assert PaperLinks(pqs, 1) == pqs by {
      FilterAllKept(pqs, OfPaper(1));
    }
    assert SumOf(pqs, LinkScore) == 5 by {
      assert pqs[..0] == [];
    }
  }

  /** Raising the only row's score from 5 to 8 leaves the total at 5. */
  lemma UpdateScoreAsWrittenKeepsOldScore()
    ensures var o := UpdateQuestionScoreAsWritten([SamplePaper().(totalScore := 5)], [PaperQuestion(1, 7, 1, 5)], 1, 7, 8, 100);
            && o.reply == Returned(true)
            && o.papers[0].totalScore == 5
            && LinkedTotal(o.paperQuestions, 1) == 8
  {
    var pqs := [PaperQuestion(1, 7, 1, 5)];
    var after := [PaperQuestion(1, 7, 1, 8)];
    SingleRowTotal(pqs[0]);
    SingleRowTotal(after[0]);
    assert LinkIndex(pqs, 1, 7) == Some(0);
    assert pqs[0 := pqs[0].(score := 8)] == after;
  }

  lemma SingleRowTotal(pq: PaperQuestion)
    ensures LinkedTotal([pq], pq.paperId) == pq.score
  {
    assert PaperLinks([pq], pq.paperId) == [pq] by {
      FilterAllKept([pq], OfPaper(pq.paperId));
    }
    assert [pq][..0] == [];
    assert SumOf([pq], LinkScore) == SumOf([], LinkScore) + LinkScore(pq);
  }

  // ---------------------------------------------------------------------
  // The repository methods on the database
  // ---------------------------------------------------------------------

  /** AddQuestionsToPaperAsync. */
  method AddQuestionsToPaper(db: Database, paperId: Id, added: seq<PaperQuestion>, now: Time) returns (r: Reply)
    modifies db`papers, db`paperQuestions
    ensures var o := AddQuestionsToPaperSpec(old(db.papers), old(db.paperQuestions), paperId, added, now);
            r == o.reply && db.papers == o.papers && db.paperQuestions == o.paperQuestions
  {
    var index := PaperIndex(db.papers, paperId);
    if index.None? {
      return Returned(false);
    }
    var links := db.paperQuestions + added;
    if !LinkKeysUnique(links) {
      return KeyConflict;
    }
    var paper := db.papers[index.value];
    var total := LinkedTotal(links, paperId);
    db.paperQuestions := links;
    db.papers := db.papers[index.value := paper.(totalScore := total, updatedAt := Some(now))];
    return Returned(true);
  }

  /** RemoveQuestionFromPaperAsync. */
  method RemoveQuestionFromPaper(db: Database, paperId: Id, questionId: Id, now: Time) returns (r: bool)
    modifies db`papers, db`paperQuestions
    ensures var o := RemoveQuestionFromPaperSpec(old(db.papers), old(db.paperQuestions), paperId, questionId, now);
            Returned(r) == o.reply && db.papers == o.papers && db.paperQuestions == o.paperQuestions
  {
    var link := LinkIndex(db.paperQuestions, paperId, questionId);
    if link.None? {
      return false;
    }
    var k := link.value;
    db.paperQuestions := db.paperQuestions[..k] + db.paperQuestions[k + 1..];
    var index := PaperIndex(db.papers, paperId);
    if index.Some? {
      var paper := db.papers[index.value];
      var total := LinkedTotal(db.paperQuestions, paperId);
      db.papers := db.papers[index.value := paper.(totalScore := total, updatedAt := Some(now))];
    }
    return true;
  }

  /** UpdateQuestionOrderAsync. */
  method UpdateQuestionOrder(db: Database, paperId: Id, questionId: Id, newOrder: int, now: Time) returns (r: bool)
    modifies db`papers, db`paperQuestions
    ensures var o := UpdateQuestionOrderSpec(old(db.papers), old(db.paperQuestions), paperId, questionId, newOrder, now);
            Returned(r) == o.reply && db.papers == o.papers && db.paperQuestions == o.paperQuestions
  {
    var link := LinkIndex(db.paperQuestions, paperId, questionId);
    if link.None? {
      return false;
    }
    var k := link.value;
    db.paperQuestions := db.paperQuestions[k := db.paperQuestions[k].(questionOrder := newOrder)];
    var index := PaperIndex(db.papers, paperId);
    if index.Some? {
      db.papers := db.papers[index.value := db.papers[index.value].(updatedAt := Some(now))];
    }
    return true;
  }

  /** UpdateQuestionScoreAsync. */
  method UpdateQuestionScore(db: Database, paperId: Id, questionId: Id, newScore: int, now: Time) returns (r: bool)
    modifies db`papers, db`paperQuestions
    ensures var o := UpdateQuestionScoreSpec(old(db.papers), old(db.paperQuestions), paperId, questionId, newScore, now);
            Returned(r) == o.reply && db.papers == o.papers && db.paperQuestions == o.paperQuestions
  {
    var link := LinkIndex(db.paperQuestions, paperId, questionId);
    if link.None? {
      return false;
    }
    var k := link.value;
    db.paperQuestions := db.paperQuestions[k := db.paperQuestions[k].(score := newScore)];
    var index := PaperIndex(db.papers, paperId);
    if index.Some? {
      var paper := db.papers[index.value];
      var total := LinkedTotal(db.paperQuestions, paperId);
      db.papers := db.papers[index.value := paper.(totalScore := total, updatedAt := Some(now))];
    }
    return true;
  }
}
