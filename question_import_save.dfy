/** The save half of the question import (ValidateAndSaveQuestionsAsync and
    the two upload entry points): every parsed record is validated, turned
    into a question with its knowledge-point links, and each row is stored by
    the repository call that adds it. A record that fails leaves neither its
    question nor its links; the points it created stay.
    A knowledge-point name nobody holds yet creates one top-level point,
    which every later record naming it reuses. */
module QuestionImportSave {
  import opened Common
  import opened Domain
  import opened Store
  import opened QuestionImportService

  // ---------------------------------------------------------------------
  // New rows
  // ---------------------------------------------------------------------

  /** The point created for an unknown name: level 1, no parent, no
      description, sort order 0. */
  function NewKnowledgePoint(id: Id, name: string, now: Time): KnowledgePoint {
    KnowledgePoint(id, name, None, None, 1, 0, now, Some(now), false)
  }

  /** The question built from a valid record: its fields copied, enabled,
      created by the importing user. */
  function NewQuestion(id: Id, d: ImportDto, creatorId: Id, now: Time): Question {
    Question(id, d.qtype, d.content, d.options, d.correctAnswer, d.explanation, d.difficulty,
             d.score, d.chapter, Enabled, Some(creatorId), now, Some(now), false)
  }

  lemma KnowledgePointIdsAppend(s: seq<KnowledgePoint>, x: KnowledgePoint)
    ensures KnowledgePointIds(s + [x]) == KnowledgePointIds(s) + [x.id]
  {
  }

  // ---------------------------------------------------------------------
  // The name dictionary (GetAllAsync + ToDictionary)
  // ---------------------------------------------------------------------

  /** No two visible points share a name. */
  predicate VisibleNamesUnique(kps: seq<KnowledgePoint>) {
    forall i, j :: 0 <= i < j < |kps| && !kps[i].isDeleted && !kps[j].isDeleted ==> kps[i].name != kps[j].name
  }

  /** Distinct names map to distinct ids. */
  predicate Injective(m: map<string, Id>) {
    forall a, b :: a in m && b in m && a != b ==> m[a] != m[b]
  }

  /** The visible points by name, later points overriding earlier ones. */
  function BuildNames(kps: seq<KnowledgePoint>): (m: map<string, Id>)
    ensures forall k :: 0 <= k < |kps| && !kps[k].isDeleted ==> kps[k].name in m
    ensures forall n :: n in m ==> m[n] in KnowledgePointIds(kps)
    decreases |kps|
  {
    if kps == [] then map[]
    else
      var init := kps[..|kps| - 1];
      var last := kps[|kps| - 1];
      var m := BuildNames(init);
      KnowledgePointIdsAppend(init, last);
      assert kps == init + [last];
      assert forall k :: 0 <= k < |init| ==> kps[k] == init[k];
      if last.isDeleted then m else m[last.name := last.id]
  }

  /** Under unique visible names each visible point's name gives its own id. */
  lemma {:induction false} BuildNamesIds(kps: seq<KnowledgePoint>)
    requires VisibleNamesUnique(kps)
    ensures forall k :: 0 <= k < |kps| && !kps[k].isDeleted ==> BuildNames(kps)[kps[k].name] == kps[k].id
    decreases |kps|
  {
    if kps != [] {
      var init := kps[..|kps| - 1];
      var last := kps[|kps| - 1];
      assert VisibleNamesUnique(init) by {
        forall i, j | 0 <= i < j < |init| && !init[i].isDeleted && !init[j].isDeleted
          ensures init[i].name != init[j].name
        {
          assert init[i] == kps[i] && init[j] == kps[j];
        }
      }
      BuildNamesIds(init);
      forall k | 0 <= k < |kps| && !kps[k].isDeleted ensures BuildNames(kps)[kps[k].name] == kps[k].id {
        if k < |init| {
          assert kps[k] == init[k];
        }
      }
    }
  }

  /** Under distinct ids the dictionary never gives two names one id. */
  lemma {:induction false} BuildNamesInjective(kps: seq<KnowledgePoint>)
    ensures Distinct(KnowledgePointIds(kps)) ==> Injective(BuildNames(kps))
    decreases |kps|
  {
    if kps != [] && Distinct(KnowledgePointIds(kps)) {
      var init := kps[..|kps| - 1];
      var last := kps[|kps| - 1];
      var ids := KnowledgePointIds(kps);
      KnowledgePointIdsAppend(init, last);
      assert kps == init + [last];
      assert Distinct(KnowledgePointIds(init)) by {
        assert KnowledgePointIds(init) == ids[..|init|];
      }
      BuildNamesInjective(init);
      var m := BuildNames(init);
      if !last.isDeleted {
        forall n | n in m ensures m[n] != last.id {
          var k :| 0 <= k < |init| && KnowledgePointIds(init)[k] == m[n];
          assert ids[k] == m[n] && ids[|init|] == last.id;
        }
      }
    }
  }

  /** The visible points by name. ToDictionary throws on a repeated key, so a
      name held by two visible points gives no dictionary. */
  function NameIndex(kps: seq<KnowledgePoint>): (r: Option<map<string, Id>>)
    ensures r.Some? <==> VisibleNamesUnique(kps)
    ensures r.Some? ==> forall k :: 0 <= k < |kps| && !kps[k].isDeleted ==>
      kps[k].name in r.value && r.value[kps[k].name] == kps[k].id
    ensures r.Some? ==> forall n :: n in r.value ==> r.value[n] in KnowledgePointIds(kps)
    ensures r.Some? && Distinct(KnowledgePointIds(kps)) ==> Injective(r.value)
  {
    if VisibleNamesUnique(kps) then
      BuildNamesIds(kps);
      BuildNamesInjective(kps);
      Some(BuildNames(kps))
    else None
  }

  // ---------------------------------------------------------------------
  // Linking one record's names
  // ---------------------------------------------------------------------

  /** The dictionary, the points created so far and the join rows of the
      record being saved. */
  datatype Linking = Linking(dict: map<string, Id>, kps: seq<KnowledgePoint>, links: seq<QuestionKnowledgePoint>)

  /** One name: a known name links its point; an unknown one creates a point
      with a new id, enters it in the dictionary and links it. */
  function LinkName(baseK: seq<KnowledgePoint>, l: Linking, name: string, qid: Id, now: Time): Linking {
    if name in l.dict then l.(links := l.links + [QuestionKnowledgePoint(qid, l.dict[name])])
    else
      var id := FreshId(KnowledgePointIds(baseK + l.kps));
      Linking(l.dict[name := id], l.kps + [NewKnowledgePoint(id, name, now)],
              l.links + [QuestionKnowledgePoint(qid, id)])
  }

  /** The names of a record, in order. */
  function LinkNames(baseK: seq<KnowledgePoint>, l: Linking, names: seq<string>, qid: Id, now: Time): Linking
    decreases |names|
  {
    if names == [] then l
    else LinkName(baseK, LinkNames(baseK, l, names[..|names| - 1], qid, now), names[|names| - 1], qid, now)
  }

  /** The dictionary only grows: an entry once made keeps its id. */
  predicate Extends(big: map<string, Id>, small: map<string, Id>) {
    forall n :: n in small ==> n in big && big[n] == small[n]
  }

  /** The names of a record each get one join row, in order, to the point the
      final dictionary gives the name; earlier rows stay. */
  lemma {:induction false} LinkNamesRows(baseK: seq<KnowledgePoint>, l: Linking, names: seq<string>, qid: Id, now: Time)
    ensures var r := LinkNames(baseK, l, names, qid, now);
      && Extends(r.dict, l.dict)
      && |r.links| == |l.links| + |names|
      && r.links[..|l.links|] == l.links
      && forall k :: 0 <= k < |names| ==>
           names[k] in r.dict && r.links[|l.links| + k] == QuestionKnowledgePoint(qid, r.dict[names[k]])
    decreases |names|
  {
    if names != [] {
      var init := names[..|names| - 1];
      var name := names[|names| - 1];
      LinkNamesRows(baseK, l, init, qid, now);
      var p := LinkNames(baseK, l, init, qid, now);
      var r := LinkName(baseK, p, name, qid, now);
      assert r.links == p.links + [r.links[|r.links| - 1]];
      forall k | 0 <= k < |names|
        ensures names[k] in r.dict && r.links[|l.links| + k] == QuestionKnowledgePoint(qid, r.dict[names[k]])
      {
        if k < |init| {
          assert names[k] == init[k];
          assert r.links[|l.links| + k] == p.links[|l.links| + k];
        }
      }
      assert r.links[..|l.links|] == p.links[..|l.links|];
    }
  }

  /** What the staging of points keeps true, relative to the points of the
      table (baseK) and the dictionary read at the start (dict0). */
  predicate Coherent(baseK: seq<KnowledgePoint>, dict0: map<string, Id>, dict: map<string, Id>, kps: seq<KnowledgePoint>) {
    && (forall n :: n in dict ==> dict[n] in KnowledgePointIds(baseK + kps))
    && Injective(dict)
    && Extends(dict, dict0)
    && Distinct(KnowledgePointIds(baseK + kps))
    && forall k :: 0 <= k < |kps| ==> CreatedFor(kps[k], dict0, dict)
  }

  /** A created point: top level, no parent, visible, entered in the
      dictionary under its name, which the start dictionary did not hold. */
  predicate CreatedFor(kp: KnowledgePoint, dict0: map<string, Id>, dict: map<string, Id>) {
    && kp.level == 1 && kp.parentId.None? && !kp.isDeleted
    && kp.name in dict && dict[kp.name] == kp.id && kp.name !in dict0
  }

  /** One name keeps the staging coherent. */
  lemma LinkNameCoherent(baseK: seq<KnowledgePoint>, dict0: map<string, Id>, l: Linking, name: string, qid: Id, now: Time)
    requires Coherent(baseK, dict0, l.dict, l.kps)
    ensures var r := LinkName(baseK, l, name, qid, now); Coherent(baseK, dict0, r.dict, r.kps)
  {
    if name !in l.dict {
      var ids := KnowledgePointIds(baseK + l.kps);
      var id := FreshId(ids);
      var kp := NewKnowledgePoint(id, name, now);
      var r := LinkName(baseK, l, name, qid, now);
      assert baseK + r.kps == (baseK + l.kps) + [kp];
      KnowledgePointIdsAppend(baseK + l.kps, kp);
      var ids' := KnowledgePointIds(baseK + r.kps);
      assert ids' == ids + [id];
      forall n | n in r.dict ensures r.dict[n] in ids' {
        if n != name {
          assert l.dict[n] in ids;
        }
      }
      forall a, b | a in r.dict && b in r.dict && a != b ensures r.dict[a] != r.dict[b] {
        if a == name {
          assert r.dict[b] in ids;
        } else if b == name {
          assert r.dict[a] in ids;
        }
      }
      forall k | 0 <= k < |r.kps| ensures CreatedFor(r.kps[k], dict0, r.dict) {
        if k < |l.kps| {
          assert r.kps[k] == l.kps[k];
          assert CreatedFor(l.kps[k], dict0, l.dict);
        }
      }
    }
  }

  /** A record's names keep the staging coherent. */
  lemma {:induction false} LinkNamesCoherent(baseK: seq<KnowledgePoint>, dict0: map<string, Id>, l: Linking, names: seq<string>, qid: Id, now: Time)
    requires Coherent(baseK, dict0, l.dict, l.kps)
    ensures var r := LinkNames(baseK, l, names, qid, now); Coherent(baseK, dict0, r.dict, r.kps)
    decreases |names|
  {
    if names != [] {
      LinkNamesCoherent(baseK, dict0, l, names[..|names| - 1], qid, now);
      LinkNameCoherent(baseK, dict0, LinkNames(baseK, l, names[..|names| - 1], qid, now), names[|names| - 1], qid, now);
    }
  }

  /** A record links one point twice exactly when it names one point twice. */
  lemma LinksDistinctIffNames(baseK: seq<KnowledgePoint>, dict0: map<string, Id>, l: Linking, names: seq<string>, qid: Id, now: Time)
    requires Coherent(baseK, dict0, l.dict, l.kps) && l.links == []
    ensures Distinct(LinkNames(baseK, l, names, qid, now).links) <==> Distinct(names)
  {
    var r := LinkNames(baseK, l, names, qid, now);
    LinkNamesRows(baseK, l, names, qid, now);
    LinkNamesCoherent(baseK, dict0, l, names, qid, now);
    if Distinct(names) {
      forall i, j | 0 <= i < j < |r.links| ensures r.links[i] != r.links[j] {
        assert names[i] != names[j];
      }
    }
    if Distinct(r.links) {
      forall i, j | 0 <= i < j < |names| ensures names[i] != names[j] {
        assert r.links[i] != r.links[j];
      }
    }
  }

  // ---------------------------------------------------------------------
  // Saving the records (ValidateAndSaveQuestionsAsync)
  // ---------------------------------------------------------------------

  /** The state of the save loop: dictionary, staged points, questions and
      join rows, and the result being tallied. */
  datatype Staging = Staging(
    dict: map<string, Id>, kps: seq<KnowledgePoint>, questions: seq<Question>,
    links: seq<QuestionKnowledgePoint>, result: ImportResult)

  function InitialStaging(dict: map<string, Id>, total: int): Staging {
    Staging(dict, [], [], [], ImportResult(total, 0, 0, [], []))
  }

  /** A failed record: one more failure and its error entry. */
  function Reject(st: Staging, d: ImportDto, message: string): Staging {
    st.(result := st.result.(failedCount := st.result.failedCount + 1,
                             errors := st.result.errors + [ImportError(d.lineNumber, d.content, message)]))
  }

  /** One record: rejected with the validation message; otherwise linked
      under a new question id, and rejected after all when two of its rows
      share a key (the points created on the way stay staged); otherwise
      staged with its rows and counted. */
  function ImportOne(baseQ: seq<Question>, baseK: seq<KnowledgePoint>, st: Staging, d: ImportDto, creatorId: Id, now: Time): Staging {
    match ValidateQuestion(d)
    case Some(message) => Reject(st, d, message)
    case None =>
      var qid := FreshId(QuestionIds(baseQ + st.questions));
      var l := LinkNames(baseK, Linking(st.dict, st.kps, []), d.knowledgePointNames, qid, now);
      if !Distinct(l.links) then Reject(st.(dict := l.dict, kps := l.kps), d, MsgDuplicateLink)
      else
        Staging(l.dict, l.kps, st.questions + [NewQuestion(qid, d, creatorId, now)], st.links + l.links,
                st.result.(successCount := st.result.successCount + 1,
                           importedQuestionIds := st.result.importedQuestionIds + [qid]))
  }

  /** The records in order. */
  function ImportAll(baseQ: seq<Question>, baseK: seq<KnowledgePoint>, st: Staging, dtos: seq<ImportDto>, creatorId: Id, now: Time): Staging
    decreases |dtos|
  {
    if dtos == [] then st
    else ImportOne(baseQ, baseK, ImportAll(baseQ, baseK, st, dtos[..|dtos| - 1], creatorId, now), dtos[|dtos| - 1], creatorId, now)
  }

  /** The whole save over the tables as they were: it throws when two
      visible points share a name, and otherwise yields the staged rows and
      the result. */
  function SaveQuestions(kps: seq<KnowledgePoint>, questions: seq<Question>, dtos: seq<ImportDto>, creatorId: Id, now: Time): Outcome<Staging> {
    match NameIndex(kps)
    case None => Thrown(MsgDuplicateName)
    case Some(dict) => Done(ImportAll(questions, kps, InitialStaging(dict, |dtos|), dtos, creatorId, now))
  }

  // ---------------------------------------------------------------------
  // What the save promises
  // ---------------------------------------------------------------------

  /** The tallies agree with the lists: one error per failure, one id per
      success, the staged questions are the imported ids. */
  predicate Tallied(st: Staging) {
    && |st.result.errors| == st.result.failedCount
    && |st.result.importedQuestionIds| == st.result.successCount
    && QuestionIds(st.questions) == st.result.importedQuestionIds
  }

  lemma ImportOneTallied(baseQ: seq<Question>, baseK: seq<KnowledgePoint>, st: Staging, d: ImportDto, creatorId: Id, now: Time)
    requires Tallied(st)
    ensures var r := ImportOne(baseQ, baseK, st, d, creatorId, now);
      && Tallied(r)
      && r.result.totalCount == st.result.totalCount
      && r.result.successCount + r.result.failedCount == st.result.successCount + st.result.failedCount + 1
  {
    if ValidateQuestion(d).None? {
      var qid := FreshId(QuestionIds(baseQ + st.questions));
      var q := NewQuestion(qid, d, creatorId, now);
      assert QuestionIds(st.questions + [q]) == QuestionIds(st.questions) + [qid];
    }
  }

  /** Every record is counted once, as a success or as a failure, and the
      lists agree with the counts. */
  lemma {:induction false} ImportAllTallied(baseQ: seq<Question>, baseK: seq<KnowledgePoint>, st: Staging, dtos: seq<ImportDto>, creatorId: Id, now: Time)
    requires Tallied(st)
    ensures var r := ImportAll(baseQ, baseK, st, dtos, creatorId, now);
      && Tallied(r)
      && r.result.totalCount == st.result.totalCount
      && r.result.successCount + r.result.failedCount == st.result.successCount + st.result.failedCount + |dtos|
    decreases |dtos|
  {
    if dtos != [] {
      ImportAllTallied(baseQ, baseK, st, dtos[..|dtos| - 1], creatorId, now);
      ImportOneTallied(baseQ, baseK, ImportAll(baseQ, baseK, st, dtos[..|dtos| - 1], creatorId, now), dtos[|dtos| - 1], creatorId, now);
    }
  }

  /** TotalCount is the number of records and SuccessCount + FailedCount ==
      TotalCount; there is one error entry per failure and one imported id,
      the id of a staged question, per success. */
  lemma SaveCounters(kps: seq<KnowledgePoint>, questions: seq<Question>, dtos: seq<ImportDto>, creatorId: Id, now: Time)
    requires SaveQuestions(kps, questions, dtos, creatorId, now).Done?
    ensures var st := SaveQuestions(kps, questions, dtos, creatorId, now).value;
      && st.result.totalCount == |dtos| == st.result.successCount + st.result.failedCount
      && |st.result.errors| == st.result.failedCount
      && |st.result.importedQuestionIds| == st.result.successCount
      && QuestionIds(st.questions) == st.result.importedQuestionIds
  {
    var dict := NameIndex(kps).value;
    ImportAllTallied(questions, kps, InitialStaging(dict, |dtos|), dtos, creatorId, now);
  }

  /** A record fails when validation rejects it or when it names one point twice. */
  predicate Fails(d: ImportDto) {
    ValidateQuestion(d).Some? || !Distinct(d.knowledgePointNames)
  }

  /** The message a failing record is reported with. */
  function FailureMessage(d: ImportDto): string {
    match ValidateQuestion(d)
    case Some(message) => message
    case None => MsgDuplicateLink
  }

  /** The error entries of the failing records, in order. */
  function ErrorsFor(dtos: seq<ImportDto>): (r: seq<ImportError>)
    ensures |r| <= |dtos|
    decreases |dtos|
  {
    if dtos == [] then []
    else
      var d := dtos[|dtos| - 1];
      ErrorsFor(dtos[..|dtos| - 1]) + (if Fails(d) then [ImportError(d.lineNumber, d.content, FailureMessage(d))] else [])
  }

  /** One record keeps the point staging coherent, and adds an error entry
      exactly when it fails. */
  lemma ImportOneErrors(baseQ: seq<Question>, baseK: seq<KnowledgePoint>, dict0: map<string, Id>, st: Staging, d: ImportDto, creatorId: Id, now: Time)
    requires Coherent(baseK, dict0, st.dict, st.kps)
    ensures var r := ImportOne(baseQ, baseK, st, d, creatorId, now);
      && Coherent(baseK, dict0, r.dict, r.kps)
      && r.result.errors == st.result.errors + (if Fails(d) then [ImportError(d.lineNumber, d.content, FailureMessage(d))] else [])
  {
    if ValidateQuestion(d).None? {
      var qid := FreshId(QuestionIds(baseQ + st.questions));
      var l0 := Linking(st.dict, st.kps, []);
      LinkNamesCoherent(baseK, dict0, l0, d.knowledgePointNames, qid, now);
      LinksDistinctIffNames(baseK, dict0, l0, d.knowledgePointNames, qid, now);
    }
  }

  /** The error entries are exactly those of the failing records, in order,
      and the created points stay coherent, provided the point ids of the
      table are distinct (they are its primary key). */
  lemma {:induction false} ImportAllErrors(baseQ: seq<Question>, baseK: seq<KnowledgePoint>, dict0: map<string, Id>, st: Staging, dtos: seq<ImportDto>, creatorId: Id, now: Time)
    requires Coherent(baseK, dict0, st.dict, st.kps)
    ensures var r := ImportAll(baseQ, baseK, st, dtos, creatorId, now);
      && Coherent(baseK, dict0, r.dict, r.kps)
      && r.result.errors == st.result.errors + ErrorsFor(dtos)
    decreases |dtos|
  {
    if dtos != [] {
      var init := dtos[..|dtos| - 1];
      ImportAllErrors(baseQ, baseK, dict0, st, init, creatorId, now);
      ImportOneErrors(baseQ, baseK, dict0, ImportAll(baseQ, baseK, st, init, creatorId, now), dtos[|dtos| - 1], creatorId, now);
    }
  }

  /** The start of the save is coherent when the table's ids are distinct. */
  lemma InitialCoherent(kps: seq<KnowledgePoint>, dict: map<string, Id>)
    requires NameIndex(kps) == Some(dict) && Distinct(KnowledgePointIds(kps))
    ensures Coherent(kps, dict, dict, [])
  {
    assert kps + [] == kps;
  }

  /** Over a table with distinct point ids, a record fails exactly when
      validation rejects it or it names a point twice; each failure is
      reported, in order, with its line number, its content and the first
      message that applies. Every point the save creates is top level,
      visible, has a name no visible point held before and no other created
      point has, and the dictionary maps that name to it, so later records
      reuse it. */
  lemma SaveErrorsAndPoints(kps: seq<KnowledgePoint>, questions: seq<Question>, dtos: seq<ImportDto>, creatorId: Id, now: Time)
    requires Distinct(KnowledgePointIds(kps))
    requires SaveQuestions(kps, questions, dtos, creatorId, now).Done?
    ensures var st := SaveQuestions(kps, questions, dtos, creatorId, now).value;
      && st.result.errors == ErrorsFor(dtos)
      && (forall k :: 0 <= k < |st.kps| ==>
            && st.kps[k].level == 1 && st.kps[k].parentId.None? && !st.kps[k].isDeleted
            && st.kps[k].name in st.dict && st.dict[st.kps[k].name] == st.kps[k].id
            && forall j :: 0 <= j < |kps| && !kps[j].isDeleted ==> kps[j].name != st.kps[k].name)
      && (forall i, j :: 0 <= i < j < |st.kps| ==> st.kps[i].name != st.kps[j].name)
  {
    var dict := NameIndex(kps).value;
    InitialCoherent(kps, dict);
    var st0 := InitialStaging(dict, |dtos|);
    ImportAllErrors(questions, kps, dict, st0, dtos, creatorId, now);
    var st := ImportAll(questions, kps, st0, dtos, creatorId, now);
    CreatedPointsNew(kps, dict, st.dict, st.kps);
    CreatedPointsDistinct(kps, dict, st.dict, st.kps);
  }

  /** A created point's name was held by no visible point. */
  lemma CreatedPointsNew(kps: seq<KnowledgePoint>, dict0: map<string, Id>, dict: map<string, Id>, created: seq<KnowledgePoint>)
    requires NameIndex(kps) == Some(dict0) && Coherent(kps, dict0, dict, created)
    ensures forall k :: 0 <= k < |created| ==>
      && created[k].level == 1 && created[k].parentId.None? && !created[k].isDeleted
      && created[k].name in dict && dict[created[k].name] == created[k].id
      && forall j :: 0 <= j < |kps| && !kps[j].isDeleted ==> kps[j].name != created[k].name
  {
    forall k | 0 <= k < |created| ensures CreatedFor(created[k], dict0, dict) {
    }
  }

  /** No two created points share a name. */
  lemma CreatedPointsDistinct(kps: seq<KnowledgePoint>, dict0: map<string, Id>, dict: map<string, Id>, created: seq<KnowledgePoint>)
    requires Coherent(kps, dict0, dict, created)
    ensures forall i, j :: 0 <= i < j < |created| ==> created[i].name != created[j].name
  {
    forall i, j | 0 <= i < j < |created| ensures created[i].name != created[j].name {
      assert CreatedFor(created[i], dict0, dict) && CreatedFor(created[j], dict0, dict);
      var ids := KnowledgePointIds(kps + created);
      assert ids[|kps| + i] == created[i].id && ids[|kps| + j] == created[j].id;
    }
  }

  /** Every staged join row belongs to an imported question. */
  predicate LinksOwned(st: Staging) {
    forall k :: 0 <= k < |st.links| ==> st.links[k].questionId in st.result.importedQuestionIds
  }

  /** Each record's join rows belong to that record's question, so every
      stored row belongs to an imported question. */
  lemma {:induction false} ImportAllLinksOwned(baseQ: seq<Question>, baseK: seq<KnowledgePoint>, st: Staging, dtos: seq<ImportDto>, creatorId: Id, now: Time)
    requires LinksOwned(st)
    ensures LinksOwned(ImportAll(baseQ, baseK, st, dtos, creatorId, now))
    decreases |dtos|
  {
    if dtos != [] {
      var init := dtos[..|dtos| - 1];
      ImportAllLinksOwned(baseQ, baseK, st, init, creatorId, now);
      ImportOneLinksOwned(baseQ, baseK, ImportAll(baseQ, baseK, st, init, creatorId, now), dtos[|dtos| - 1], creatorId, now);
    }
  }

  /** One record keeps every staged row owned by an imported question. */
  lemma ImportOneLinksOwned(baseQ: seq<Question>, baseK: seq<KnowledgePoint>, p: Staging, d: ImportDto, creatorId: Id, now: Time)
    requires LinksOwned(p)
    ensures LinksOwned(ImportOne(baseQ, baseK, p, d, creatorId, now))
  {
    if ValidateQuestion(d).None? {
      var qid := FreshId(QuestionIds(baseQ + p.questions));
      var l0 := Linking(p.dict, p.kps, []);
      var l := LinkNames(baseK, l0, d.knowledgePointNames, qid, now);
      if Distinct(l.links) {
        LinkNamesRows(baseK, l0, d.knowledgePointNames, qid, now);
        var r := ImportOne(baseQ, baseK, p, d, creatorId, now);
        assert r.links == p.links + l.links;
        assert r.result.importedQuestionIds == p.result.importedQuestionIds + [qid];
        assert qid in r.result.importedQuestionIds;
        forall k | 0 <= k < |r.links| ensures r.links[k].questionId in r.result.importedQuestionIds {
          if k < |p.links| {
            assert r.links[k] == p.links[k];
          } else {
            var j := k - |p.links|;
            assert r.links[k] == l.links[j];
            assert l.links[|l0.links| + j] == QuestionKnowledgePoint(qid, l.dict[d.knowledgePointNames[j]]);
          }
        }
      }
    }
  }

  /** The save is all or nothing per record: the stored questions are exactly
      the imported ones, and every stored join row belongs to one of them, so
      a failed record leaves neither its question nor any of its rows. */
  lemma SaveAllOrNothing(kps: seq<KnowledgePoint>, questions: seq<Question>, dtos: seq<ImportDto>, creatorId: Id, now: Time)
    requires SaveQuestions(kps, questions, dtos, creatorId, now).Done?
    ensures var st := SaveQuestions(kps, questions, dtos, creatorId, now).value;
      && QuestionIds(st.questions) == st.result.importedQuestionIds
      && forall k :: 0 <= k < |st.links| ==> st.links[k].questionId in st.result.importedQuestionIds
  {
    SaveCounters(kps, questions, dtos, creatorId, now);
    var dict := NameIndex(kps).value;
    assert SaveQuestions(kps, questions, dtos, creatorId, now) ==
      Done(ImportAll(questions, kps, InitialStaging(dict, |dtos|), dtos, creatorId, now));
    ImportAllLinksOwned(questions, kps, InitialStaging(dict, |dtos|), dtos, creatorId, now);
  }

  // ---------------------------------------------------------------------
  // The save as written: what a failed record leaves tracked
  // ---------------------------------------------------------------------

  /** The first position whose element already occurs before it, or the
      length when there is none. */
  function FirstRepeat<T(==)>(s: seq<T>): (k: nat)
    ensures k <= |s|
    decreases |s|
  {
    if s == [] then 0
    else
      var k := FirstRepeat(s[..|s| - 1]);
      if k < |s| - 1 || s[|s| - 1] in s[..|s| - 1] then k else |s|
  }

  /** The elements before the first repeat are distinct, and the element at
      it occurs earlier. */
  lemma {:induction false} FirstRepeatIsFirst<T>(s: seq<T>)
    ensures var k := FirstRepeat(s);
      && Distinct(s[..k])
      && (k < |s| ==> s[k] in s[..k])
    decreases |s|
  {
    if s != [] {
      var init := s[..|s| - 1];
      FirstRepeatIsFirst(init);
      var k := FirstRepeat(init);
      assert init[..k] == s[..k];
      if k == |init| && s[|s| - 1] !in init {
        assert s[..|s|] == s;
        assert forall i :: 0 <= i < |init| ==> s[i] == init[i];
      }
    }
  }

  /** The save loop as written: the staging (its questions and rows are the
      stored ones) and the question and rows that failed records left in the
      change tracker. */
  datatype Tracking = Tracking(st: Staging, pendingQuestions: seq<Question>, pendingLinks: seq<QuestionKnowledgePoint>)

  /** A save: everything tracked is stored. */
  function Flush(t: Tracking): Tracking {
    Tracking(t.st.(questions := t.st.questions + t.pendingQuestions, links := t.st.links + t.pendingLinks), [], [])
  }

  /** One record as written. Creating a point saves, and so stores what
      earlier failures left tracked. Adding a question whose rows repeat a key
      throws after the question and the rows before the repeat are tracked:
      they stay tracked while the record counts as failed. A successful add
      saves them together with the new question. */
  function ImportOneAsWritten(baseQ: seq<Question>, baseK: seq<KnowledgePoint>, t: Tracking, d: ImportDto, creatorId: Id, now: Time): Tracking {
    match ValidateQuestion(d)
    case Some(message) => t.(st := Reject(t.st, d, message))
    case None =>
      var qid := FreshId(QuestionIds(baseQ + t.st.questions + t.pendingQuestions));
      var l := LinkNames(baseK, Linking(t.st.dict, t.st.kps, []), d.knowledgePointNames, qid, now);
      var t1 := if |l.kps| > |t.st.kps| then Flush(t) else t;
      var t2 := t1.(st := t1.st.(dict := l.dict, kps := l.kps));
      var q := NewQuestion(qid, d, creatorId, now);
      if !Distinct(l.links) then
        Tracking(Reject(t2.st, d, MsgDuplicateLink), t2.pendingQuestions + [q],
                 t2.pendingLinks + l.links[..FirstRepeat(l.links)])
      else
        var t3 := Flush(t2);
        t3.(st := t3.st.(questions := t3.st.questions + [q], links := t3.st.links + l.links,
                         result := t3.st.result.(successCount := t3.st.result.successCount + 1,
                                                 importedQuestionIds := t3.st.result.importedQuestionIds + [qid])))
  }

  function ImportAllAsWritten(baseQ: seq<Question>, baseK: seq<KnowledgePoint>, t: Tracking, dtos: seq<ImportDto>, creatorId: Id, now: Time): Tracking
    decreases |dtos|
  {
    if dtos == [] then t
    else ImportOneAsWritten(baseQ, baseK, ImportAllAsWritten(baseQ, baseK, t, dtos[..|dtos| - 1], creatorId, now),
                            dtos[|dtos| - 1], creatorId, now)
  }

  /** The save as written: the final SaveChangesAsync, made only when some
      record succeeded, stores what is still tracked; otherwise it is lost
      with the context. The questions and rows of the result are the stored
      ones. */
  function SaveQuestionsAsWritten(kps: seq<KnowledgePoint>, questions: seq<Question>, dtos: seq<ImportDto>, creatorId: Id, now: Time): Outcome<Staging> {
    match NameIndex(kps)
    case None => Thrown(MsgDuplicateName)
    case Some(dict) =>
      var t := ImportAllAsWritten(questions, kps, Tracking(InitialStaging(dict, |dtos|), [], []), dtos, creatorId, now);
      Done(if t.st.result.successCount > 0 then Flush(t).st else t.st)
  }

  /** On empty tables, a record naming the point x twice creates x with id 0
      and gets two equal rows for question 0. */
  lemma NamingTwiceLinks(x: string, now: Time)
    ensures LinkNames([], Linking(map[], [], []), [x, x], 0, now)
      == Linking(map[x := 0], [NewKnowledgePoint(0, x, now)],
                 [QuestionKnowledgePoint(0, 0), QuestionKnowledgePoint(0, 0)])
  {
    var l0 := Linking(map[], [], []);
    assert [x, x][..1] == [x] && [x][..0] == [];
    assert LinkNames([], l0, [], 0, now) == l0;
    var l1 := LinkNames([], l0, [x], 0, now);
    assert l1 == LinkName([], l0, x, 0, now);
    assert FreshId(KnowledgePointIds([] + [])) == 0;
    assert l1 == Linking(map[x := 0], [NewKnowledgePoint(0, x, now)], [QuestionKnowledgePoint(0, 0)]);
    assert x in l1.dict;
  }

  lemma FirstRepeatOfPair(q: QuestionKnowledgePoint)
    ensures FirstRepeat([q, q]) == 1
  {
    assert [q, q][..1] == [q] && [q][..0] == [];
    assert FirstRepeat([q]) == 1;
  }

  /** A valid record whose rows repeat a key, when nothing is tracked yet. */
  lemma RepeatedRowStep(baseQ: seq<Question>, baseK: seq<KnowledgePoint>, t: Tracking, d: ImportDto, creatorId: Id, now: Time, qid: Id, l: Linking)
    requires ValidateQuestion(d).None? && t.pendingQuestions == [] && t.pendingLinks == []
    requires qid == FreshId(QuestionIds(baseQ + t.st.questions))
    requires l == LinkNames(baseK, Linking(t.st.dict, t.st.kps, []), d.knowledgePointNames, qid, now)
    requires !Distinct(l.links)
    ensures ImportOneAsWritten(baseQ, baseK, t, d, creatorId, now)
      == Tracking(Reject(t.st.(dict := l.dict, kps := l.kps), d, MsgDuplicateLink),
                  [NewQuestion(qid, d, creatorId, now)], l.links[..FirstRepeat(l.links)])
  {
    assert baseQ + t.st.questions + t.pendingQuestions == baseQ + t.st.questions;
    assert t.st.questions + t.pendingQuestions == t.st.questions && t.st.links + t.pendingLinks == t.st.links;
  }

  /** As written, on empty tables a valid record naming x twice throws on its
      second row: it counts as failed, x is created, and its question and
      first row stay tracked. */
  lemma AsWrittenFirstRecord(a: ImportDto, x: string, total: int, creatorId: Id, now: Time)
    requires ValidateQuestion(a).None? && a.knowledgePointNames == [x, x]
    ensures ImportOneAsWritten([], [], Tracking(InitialStaging(map[], total), [], []), a, creatorId, now)
      == Tracking(Reject(Staging(map[x := 0], [NewKnowledgePoint(0, x, now)], [], [], ImportResult(total, 0, 0, [], [])),
                         a, MsgDuplicateLink),
                  [NewQuestion(0, a, creatorId, now)], [QuestionKnowledgePoint(0, 0)])
  {
    var t := Tracking(InitialStaging(map[], total), [], []);
    NamingTwiceLinks(x, now);
    var link := QuestionKnowledgePoint(0, 0);
    FirstRepeatOfPair(link);
    assert !Distinct([link, link]);
    RepeatedRowStep([], [], t, a, creatorId, now, 0,
                    Linking(map[x := 0], [NewKnowledgePoint(0, x, now)], [link, link]));
    assert [link, link][..1] == [link];
  }

  /** As written, a valid record naming no point, after that failure, saves
      and so stores the failed record's question and row with its own. */
  lemma AsWrittenSecondRecord(t: Tracking, a: ImportDto, b: ImportDto, creatorId: Id, now: Time)
    requires ValidateQuestion(b).None? && b.knowledgePointNames == []
    requires && t.st.questions == [] && t.st.links == []
             && t.pendingQuestions == [NewQuestion(0, a, creatorId, now)]
             && t.pendingLinks == [QuestionKnowledgePoint(0, 0)]
    ensures var r := ImportOneAsWritten([], [], t, b, creatorId, now);
      && r.st.questions == [NewQuestion(0, a, creatorId, now), NewQuestion(1, b, creatorId, now)]
      && r.st.links == [QuestionKnowledgePoint(0, 0)]
      && r.st.result.successCount == t.st.result.successCount + 1
      && r.st.result.failedCount == t.st.result.failedCount
      && r.st.result.errors == t.st.result.errors
      && r.st.result.importedQuestionIds == t.st.result.importedQuestionIds + [1]
      && r.pendingQuestions == [] && r.pendingLinks == []
      && r.st.dict == t.st.dict && r.st.kps == t.st.kps
  {
    var ids := QuestionIds([] + t.st.questions + t.pendingQuestions);
    assert ids == [0] && ids[..0] == [];
    assert FreshId(ids) == 1;
  }

  /** Two records, one after the other. */
  lemma AsWrittenTwoRecords(baseQ: seq<Question>, baseK: seq<KnowledgePoint>, t: Tracking, a: ImportDto, b: ImportDto, creatorId: Id, now: Time)
    ensures ImportAllAsWritten(baseQ, baseK, t, [a, b], creatorId, now)
      == ImportOneAsWritten(baseQ, baseK, ImportOneAsWritten(baseQ, baseK, t, a, creatorId, now), b, creatorId, now)
  {
    assert [a, b][..1] == [a] && [a][..0] == [];
    assert ImportAllAsWritten(baseQ, baseK, t, [a], creatorId, now) == ImportOneAsWritten(baseQ, baseK, t, a, creatorId, now);
  }

  /** The two records as written: what is stored and what is still tracked. */
  lemma AsWrittenPair(a: ImportDto, b: ImportDto, x: string, creatorId: Id, now: Time)
    requires ValidateQuestion(a).None? && a.knowledgePointNames == [x, x]
    requires ValidateQuestion(b).None? && b.knowledgePointNames == []
    ensures ImportAllAsWritten([], [], Tracking(InitialStaging(map[], 2), [], []), [a, b], creatorId, now)
      == Tracking(Staging(map[x := 0], [NewKnowledgePoint(0, x, now)],
                          [NewQuestion(0, a, creatorId, now), NewQuestion(1, b, creatorId, now)],
                          [QuestionKnowledgePoint(0, 0)],
                          ImportResult(2, 1, 1, [ImportError(a.lineNumber, a.content, MsgDuplicateLink)], [1])),
                  [], [])
  {
    var t0 := Tracking(InitialStaging(map[], 2), [], []);
    AsWrittenTwoRecords([], [], t0, a, b, creatorId, now);
    AsWrittenFirstRecord(a, x, 2, creatorId, now);
    var t1 := ImportOneAsWritten([], [], t0, a, creatorId, now);
    AsWrittenSecondRecord(t1, a, b, creatorId, now);
  }

  /** As written, on empty tables, a valid record naming one point twice fails
      and is left out of the imported ids, yet the next valid record's save
      stores its question with one join row. */
  lemma PartlySavedRecordStored(a: ImportDto, b: ImportDto, x: string, creatorId: Id, now: Time)
    requires ValidateQuestion(a).None? && a.knowledgePointNames == [x, x]
    requires ValidateQuestion(b).None? && b.knowledgePointNames == []
    ensures var o := SaveQuestionsAsWritten([], [], [a, b], creatorId, now);
      && o.Done?
      && o.value.result.successCount == 1 && o.value.result.failedCount == 1
      && o.value.result.errors == [ImportError(a.lineNumber, a.content, MsgDuplicateLink)]
      && o.value.result.importedQuestionIds == [1]
      && o.value.questions == [NewQuestion(0, a, creatorId, now), NewQuestion(1, b, creatorId, now)]
      && o.value.links == [QuestionKnowledgePoint(0, 0)]
      && o.value.kps == [NewKnowledgePoint(0, x, now)]
  {
    assert NameIndex([]) == Some(map[]);
    AsWrittenPair(a, b, x, creatorId, now);
  }

  // ---------------------------------------------------------------------
  // The imperative save
  // ---------------------------------------------------------------------

  /** The foreach over a record's names. */
  method LinkKnowledgePoints(baseK: seq<KnowledgePoint>, l0: Linking, names: seq<string>, qid: Id, now: Time) returns (l: Linking)
    ensures l == LinkNames(baseK, l0, names, qid, now)
  {
    l := l0;
    for i := 0 to |names|
      invariant l == LinkNames(baseK, l0, names[..i], qid, now)
    {
      assert names[..i + 1][..i] == names[..i];
      var name := names[i];
      if name in l.dict {
        l := l.(links := l.links + [QuestionKnowledgePoint(qid, l.dict[name])]);
      } else {
        var id := FreshId(KnowledgePointIds(baseK + l.kps));
        l := Linking(l.dict[name := id], l.kps + [NewKnowledgePoint(id, name, now)],
                     l.links + [QuestionKnowledgePoint(qid, id)]);
      }
    }
    assert names[..|names|] == names;
  }

  /** The body of the save loop for one record. */
  method ImportRecord(baseQ: seq<Question>, baseK: seq<KnowledgePoint>, st: Staging, d: ImportDto, creatorId: Id, now: Time) returns (next: Staging)
    ensures next == ImportOne(baseQ, baseK, st, d, creatorId, now)
  {
    var check := ValidateQuestion(d);
    if check.Some? {
      return Reject(st, d, check.value);
    }
    var qid := FreshId(QuestionIds(baseQ + st.questions));
    var l := LinkKnowledgePoints(baseK, Linking(st.dict, st.kps, []), d.knowledgePointNames, qid, now);
    if !Distinct(l.links) {
      return Reject(st.(dict := l.dict, kps := l.kps), d, MsgDuplicateLink);
    }
    next := Staging(l.dict, l.kps, st.questions + [NewQuestion(qid, d, creatorId, now)], st.links + l.links,
                    st.result.(successCount := st.result.successCount + 1,
                               importedQuestionIds := st.result.importedQuestionIds + [qid]));
  }

  /** ValidateAndSaveQuestionsAsync: throws before any write when two visible
      points share a name; otherwise each record's rows are stored by the
      repository call that adds them, so the tables grow by the staged
      points (those of failed records included), questions and join rows. */
  method ValidateAndSaveQuestions(db: Database, dtos: seq<ImportDto>, creatorId: Id, now: Time) returns (r: Outcome<ImportResult>)
    modifies db`questions, db`knowledgePoints, db`questionKnowledgePoints
    ensures match SaveQuestions(old(db.knowledgePoints), old(db.questions), dtos, creatorId, now)
      case Thrown(m) =>
        r == Thrown(m) && db.questions == old(db.questions) && db.knowledgePoints == old(db.knowledgePoints)
        && db.questionKnowledgePoints == old(db.questionKnowledgePoints)
      case Done(st) =>
        && r == Done(st.result)
        && db.questions == old(db.questions) + st.questions
        && db.knowledgePoints == old(db.knowledgePoints) + st.kps
        && db.questionKnowledgePoints == old(db.questionKnowledgePoints) + st.links
  {
    var index := NameIndex(db.knowledgePoints);
    if index.None? {
      return Thrown(MsgDuplicateName);
    }
    var baseQ, baseK, baseL := db.questions, db.knowledgePoints, db.questionKnowledgePoints;
    var st0 := InitialStaging(index.value, |dtos|);
    var st := st0;
    for i := 0 to |dtos|
      invariant st == ImportAll(baseQ, baseK, st0, dtos[..i], creatorId, now)
      invariant db.questions == baseQ + st.questions && db.knowledgePoints == baseK + st.kps
      invariant db.questionKnowledgePoints == baseL + st.links
    {
      assert dtos[..i + 1][..i] == dtos[..i];
      st := ImportRecord(baseQ, baseK, st, dtos[i], creatorId, now);
      db.questions := baseQ + st.questions;
      db.knowledgePoints := baseK + st.kps;
      db.questionKnowledgePoints := baseL + st.links;
    }
    assert dtos[..|dtos|] == dtos;
    return Done(st.result);
  }

  // ---------------------------------------------------------------------
  // Uploads (ImportFromTextAsync / ImportFromWordAsync)
  // ---------------------------------------------------------------------

  /** The upload checks shared by both entry points: a missing or empty
      stream first, then the file extension, compared ignoring case. */
  function UploadCheck(streamLength: Option<nat>, fileName: string, extension: string, wrongType: string): (r: Option<string>)
    ensures r.None? <==> streamLength.Some? && streamLength.value > 0 && EndsWithIgnoreCase(fileName, extension)
    ensures (streamLength.None? || streamLength.value == 0) ==> r == Some(MsgEmptyStream)
  {
    if streamLength.None? || streamLength.value == 0 then Some(MsgEmptyStream)
    else if !EndsWithIgnoreCase(fileName, extension) then Some(wrongType)
    else None
  }

  /** The text the Word path hands to the parser: every paragraph that is not
      blank, each followed by a line break. */
  function WordText(paragraphs: seq<string>): string
    decreases |paragraphs|
  {
    if paragraphs == [] then ""
    else
      var last := paragraphs[|paragraphs| - 1];
      WordText(paragraphs[..|paragraphs| - 1]) + (if IsBlank(last) then "" else last + "\n")
  }

  /** The Word text is the non-blank paragraphs joined by line breaks, with a
      final line break after the last one. */
  lemma {:induction false} WordTextJoins(paragraphs: seq<string>)
    ensures WordText(paragraphs) == JoinWith(Filter(paragraphs, IsNonBlank) + [""], '\n')
    decreases |paragraphs|
  {
    if paragraphs != [] {
      var init := paragraphs[..|paragraphs| - 1];
      var last := paragraphs[|paragraphs| - 1];
      WordTextJoins(init);
      var kept := Filter(init, IsNonBlank);
      if !IsBlank(last) {
        assert Filter(paragraphs, IsNonBlank) == kept + [last];
        JoinBeforeEmpty(kept, last);
      }
    }
  }

  /** Putting one more piece before the final empty piece. */
  lemma {:induction false} JoinBeforeEmpty(pieces: seq<string>, x: string)
    ensures JoinWith(pieces + [x] + [""], '\n') == JoinWith(pieces + [""], '\n') + x + "\n"
    decreases |pieces|
  {
    if pieces == [] {
      assert [x] + [""] == [x, ""];
      assert JoinWith([""], '\n') == "";
    } else {
      var tail := pieces[1..];
      assert pieces + [x] + [""] == [pieces[0]] + (tail + [x] + [""]);
      assert pieces + [""] == [pieces[0]] + (tail + [""]);
      assert (pieces + [x] + [""])[1..] == tail + [x] + [""];
      assert (pieces + [""])[1..] == tail + [""];
      JoinBeforeEmpty(tail, x);
    }
  }

  /** The foreach over the paragraphs with its StringBuilder. */
  method ParagraphText(paragraphs: seq<string>) returns (text: string)
    ensures text == WordText(paragraphs)
  {
    text := "";
    for i := 0 to |paragraphs|
      invariant text == WordText(paragraphs[..i])
    {
      assert paragraphs[..i + 1][..i] == paragraphs[..i];
      if !IsBlank(paragraphs[i]) {
        text := text + paragraphs[i] + "\n";
      }
    }
    assert paragraphs[..|paragraphs|] == paragraphs;
  }

  /** ImportFromTextAsync: the upload checks, then the decoded text parsed
      and saved. */
  method ImportFromText(db: Database, streamLength: Option<nat>, fileName: string, content: string, creatorId: Id, now: Time)
    returns (r: Outcome<ImportResult>)
    modifies db`questions, db`knowledgePoints, db`questionKnowledgePoints
    ensures UploadCheck(streamLength, fileName, ".txt", MsgTxtOnly).Some? ==>
      r == Thrown(UploadCheck(streamLength, fileName, ".txt", MsgTxtOnly).value)
      && db.questions == old(db.questions) && db.knowledgePoints == old(db.knowledgePoints)
      && db.questionKnowledgePoints == old(db.questionKnowledgePoints)
    ensures UploadCheck(streamLength, fileName, ".txt", MsgTxtOnly).None? ==>
      match SaveQuestions(old(db.knowledgePoints), old(db.questions), ParseBlocks(Pieces(content)), creatorId, now)
      case Thrown(m) =>
        r == Thrown(m) && db.questions == old(db.questions) && db.knowledgePoints == old(db.knowledgePoints)
        && db.questionKnowledgePoints == old(db.questionKnowledgePoints)
      case Done(st) =>
        && r == Done(st.result)
        && db.questions == old(db.questions) + st.questions
        && db.knowledgePoints == old(db.knowledgePoints) + st.kps
        && db.questionKnowledgePoints == old(db.questionKnowledgePoints) + st.links
  {
    var check := UploadCheck(streamLength, fileName, ".txt", MsgTxtOnly);
    if check.Some? {
      return Thrown(check.value);
    }
    var dtos := ParseQuestionText(content);
    r := ValidateAndSaveQuestions(db, dtos, creatorId, now);
  }

  /** ImportFromWordAsync: the upload checks, then a document without a body
      throws; otherwise the paragraph text is parsed and saved. */
  method ImportFromWord(db: Database, streamLength: Option<nat>, fileName: string, body: Option<seq<string>>, creatorId: Id, now: Time)
    returns (r: Outcome<ImportResult>)
    modifies db`questions, db`knowledgePoints, db`questionKnowledgePoints
    ensures UploadCheck(streamLength, fileName, ".docx", MsgDocxOnly).Some? ==>
      r == Thrown(UploadCheck(streamLength, fileName, ".docx", MsgDocxOnly).value)
      && db.questions == old(db.questions) && db.knowledgePoints == old(db.knowledgePoints)
      && db.questionKnowledgePoints == old(db.questionKnowledgePoints)
    ensures UploadCheck(streamLength, fileName, ".docx", MsgDocxOnly).None? && body.None? ==>
      r == Thrown(MsgUnreadableWord) && db.questions == old(db.questions)
      && db.knowledgePoints == old(db.knowledgePoints) && db.questionKnowledgePoints == old(db.questionKnowledgePoints)
    ensures UploadCheck(streamLength, fileName, ".docx", MsgDocxOnly).None? && body.Some? ==>
      match SaveQuestions(old(db.knowledgePoints), old(db.questions), ParseBlocks(Pieces(WordText(body.value))), creatorId, now)
      case Thrown(m) =>
        r == Thrown(m) && db.questions == old(db.questions) && db.knowledgePoints == old(db.knowledgePoints)
        && db.questionKnowledgePoints == old(db.questionKnowledgePoints)
      case Done(st) =>
        && r == Done(st.result)
        && db.questions == old(db.questions) + st.questions
        && db.knowledgePoints == old(db.knowledgePoints) + st.kps
        && db.questionKnowledgePoints == old(db.questionKnowledgePoints) + st.links
  {
    var check := UploadCheck(streamLength, fileName, ".docx", MsgDocxOnly);
    if check.Some? {
      return Thrown(check.value);
    }
    if body.None? {
      return Thrown(MsgUnreadableWord);
    }
    var text := ParagraphText(body.value);
    var dtos := ParseQuestionText(text);
    r := ValidateAndSaveQuestions(db, dtos, creatorId, now);
  }
}
