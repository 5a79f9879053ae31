/** Question import: the text format of "---"-separated pieces made of
    `key: value` lines, the checks every imported record must pass, and the
    save that creates the questions, their knowledge-point links and any
    knowledge point named for the first time. Reading the upload stream and
    extracting paragraphs from a Word document are foreign I/O: the model
    takes the decoded text, or the paragraphs' inner texts, as parameters. */
module QuestionImportService {
  import opened Common
  import opened Domain
  import opened Store

  // ---------------------------------------------------------------------
  // Records, outcomes and messages
  // ---------------------------------------------------------------------

  /** QuestionImportDto: one parsed record, with the defaults of a fresh DTO. */
  datatype ImportDto = ImportDto(
    qtype: QuestionType, content: string, options: Option<string>, correctAnswer: string,
    explanation: Option<string>, difficulty: DifficultyLevel, score: int,
    chapter: Option<string>, knowledgePointNames: seq<string>, lineNumber: int)

  /** A fresh record: no type (enum value 0), empty content and answer,
      Medium difficulty and a score of 1. */
  function Defaults(lineNumber: int): ImportDto {
    ImportDto(Unset, "", None, "", None, Medium, 1, None, [], lineNumber)
  }

  datatype ImportError = ImportError(lineNumber: int, questionContent: string, errorMessage: string)

  datatype ImportResult = ImportResult(
    totalCount: int, successCount: int, failedCount: int,
    errors: seq<ImportError>, importedQuestionIds: seq<Id>)

  /** What ParseSingleQuestion does with one piece: no usable line (null),
      a record, or an exception with this message. */
  datatype PieceResult = Skipped | Parsed(record: ImportDto) | Failed(message: string)

  const MsgEmptyStream := "文件流不能为空"
  const MsgDocxOnly := "只支持.docx格式的Word文档"
  const MsgTxtOnly := "只支持.txt格式的文本文件"
  const MsgUnreadableWord := "无法读取Word文档内容"
  const MsgContentRequired := "题干不能为空"
  const MsgAnswerRequired := "答案不能为空"
  const MsgOptionsRequired := "选择题必须有选项"
  const MsgScorePositive := "分数必须大于0"
  const ParseFailurePrefix := "解析失败: "
  /** Stand-in for the runtime's own exception text when a knowledge-point
      name is held by two visible points (building the name dictionary). */
  const MsgDuplicateName := "duplicate knowledge point name"

  // ---------------------------------------------------------------------
  // Lines, pieces and names
  // ---------------------------------------------------------------------

  /** Non-empty, with no white space at either end. */
  predicate Trimmed(s: string) {
    s != [] && !IsWhite(s[0]) && !IsWhite(s[|s| - 1])
  }

  predicate IsNonBlank(s: string) {
    !IsBlank(s)
  }

  /** Select(Trim).Where(!IsNullOrWhiteSpace): the trimmed pieces that are
      not blank, in order; each is non-empty with no white space at its ends. */
  function TrimKeep(pieces: seq<string>): (r: seq<string>)
    ensures |r| <= |pieces|
    ensures forall k :: 0 <= k < |r| ==> Trimmed(r[k])
    decreases |pieces|
  {
    if pieces == [] then []
    else
      var t := Trim(pieces[0]);
      var rest := TrimKeep(pieces[1..]);
      if IsBlank(t) then rest
      else
        TrimmedWhenNotBlank(pieces[0]);
        ConsTrimmed(t, rest);
        [t] + rest
  }

  lemma TrimmedWhenNotBlank(s: string)
    requires !IsBlank(Trim(s))
    ensures Trimmed(Trim(s))
  {
  }

  lemma ConsTrimmed(t: string, rest: seq<string>)
    requires Trimmed(t) && forall k :: 0 <= k < |rest| ==> Trimmed(rest[k])
    ensures forall k :: 0 <= k < |[t] + rest| ==> Trimmed(([t] + rest)[k])
  {
    forall k | 0 <= k < |[t] + rest| ensures Trimmed(([t] + rest)[k]) {
      if k > 0 {
        assert ([t] + rest)[k] == rest[k - 1];
      }
    }
  }

  /** A piece that is not blank survives, trimmed. */
  lemma {:induction false} TrimKeepKeeps(pieces: seq<string>, j: nat)
    requires j < |pieces| && !IsBlank(pieces[j])
    ensures Trim(pieces[j]) in TrimKeep(pieces)
    decreases |pieces|
  {
    TrimEmptyIffBlank(pieces[j]);
    assert Trim(pieces[j])[0] != ' ' && !IsBlank(Trim(pieces[j])) by {
      assert !IsWhite(Trim(pieces[j])[0]);
    }
    if j != 0 {
      assert pieces[1..][j - 1] == pieces[j];
      TrimKeepKeeps(pieces[1..], j - 1);
    }
  }

  /** The characters of s avoid the set cs. */
  predicate Avoids(s: string, cs: set<char>) {
    forall i :: 0 <= i < |s| ==> s[i] !in cs
  }

  lemma TrimAvoids(s: string, cs: set<char>)
    requires Avoids(s, cs)
    ensures Avoids(Trim(s), cs)
  {
    var t := Trim(s);
    var a := |s| - |TrimStart(s)|;
    assert t == s[a..a + |t|];
    forall i | 0 <= i < |t| ensures t[i] !in cs {
      assert t[i] == s[a + i];
    }
  }

  predicate AllAvoid(pieces: seq<string>, cs: set<char>) {
    forall k :: 0 <= k < |pieces| ==> Avoids(pieces[k], cs)
  }

  /** Trimming and dropping pieces adds no character. */
  lemma {:induction false} TrimKeepAvoids(pieces: seq<string>, cs: set<char>)
    requires AllAvoid(pieces, cs)
    ensures AllAvoid(TrimKeep(pieces), cs)
    decreases |pieces|
  {
    if pieces != [] {
      var tail := pieces[1..];
      assert AllAvoid(tail, cs) by {
        forall k | 0 <= k < |tail| ensures Avoids(tail[k], cs) {
          assert tail[k] == pieces[k + 1];
        }
      }
      TrimKeepAvoids(tail, cs);
      assert Avoids(pieces[0], cs);
      TrimAvoids(pieces[0], cs);
      var t, rest := Trim(pieces[0]), TrimKeep(tail);
      if !IsBlank(t) {
        var r := [t] + rest;
        assert TrimKeep(pieces) == r;
        forall k | 0 <= k < |r| ensures Avoids(r[k], cs) {
          if k > 0 {
            assert r[k] == rest[k - 1];
          }
        }
      }
    }
  }

  /** The lines of a piece: Split('\n', RemoveEmptyEntries), trimmed, blanks dropped. */
  function Lines(piece: string): (r: seq<string>)
    ensures forall k :: 0 <= k < |r| ==> Trimmed(r[k])
  {
    TrimKeep(NonEmpty(Split(piece, {'\n'})))
  }

  /** A string with a non-blank character keeps a non-blank piece when it is
      cut at white-space separators. */
  lemma {:induction false} SplitKeepsNonBlank(s: string, seps: set<char>)
    requires forall c :: c in seps ==> IsWhite(c)
    requires !IsBlank(s)
    ensures exists k :: 0 <= k < |Split(s, seps)| && !IsBlank(Split(s, seps)[k])
    decreases |s|
  {
    if !IsWhite(s[0]) {
      var rest := Split(s[1..], seps);
      assert s[0] !in seps;
      assert Split(s, seps)[0] == [s[0]] + rest[0];
      assert Split(s, seps)[0][0] == s[0];
    } else {
      TailNotBlank(s);
      SplitKeepsNonBlank(s[1..], seps);
      var k :| 0 <= k < |Split(s[1..], seps)| && !IsBlank(Split(s[1..], seps)[k]);
      SplitLiftsNonBlank(s, seps, k);
    }
  }

  /** Dropping a leading white-space character keeps a string non-blank. */
  lemma TailNotBlank(s: string)
    requires !IsBlank(s) && IsWhite(s[0])
    ensures !IsBlank(s[1..])
  {
    var i :| 0 <= i < |s| && !IsWhite(s[i]);
    assert s[1..][i - 1] == s[i];
  }

  /** A non-blank piece of the split tail gives a non-blank piece of the split string. */
  lemma SplitLiftsNonBlank(s: string, seps: set<char>, k: nat)
    requires s != [] && k < |Split(s[1..], seps)| && !IsBlank(Split(s[1..], seps)[k])
    ensures exists j :: 0 <= j < |Split(s, seps)| && !IsBlank(Split(s, seps)[j])
  {
    var r := Split(s, seps);
    var rest := Split(s[1..], seps);
    if s[0] in seps {
      assert r[k + 1] == rest[k];
    } else if k == 0 {
      var i :| 0 <= i < |rest[0]| && !IsWhite(rest[0][i]);
      assert r[0][i + 1] == rest[0][i];
    } else {
      assert r[k] == rest[k];
    }
  }

  /** A piece that is not blank has at least one line, so ParseSingleQuestion
      never returns null for the pieces ParseQuestionText hands it. */
  lemma NonBlankHasLine(piece: string)
    requires !IsBlank(piece)
    ensures Lines(piece) != []
  {
    var parts := Split(piece, {'\n'});
    SplitKeepsNonBlank(piece, {'\n'});
    var k :| 0 <= k < |parts| && !IsBlank(parts[k]);
    assert parts[k] != [];
    assert parts[k] in NonEmpty(parts);
    var ne := NonEmpty(parts);
    var j :| 0 <= j < |ne| && ne[j] == parts[k];
    TrimKeepKeeps(ne, j);
  }

  /** The separators of a knowledge-point list: ASCII and full-width comma and semicolon. */
  const KnowledgePointSeparators: set<char> := {',', '，', ';', '；'}

  /** The knowledge-point names of a `知识点` value: split on the separators,
      empties dropped, trimmed, blanks dropped. */
  function KnowledgePointNames(value: string): (r: seq<string>)
    ensures forall k :: 0 <= k < |r| ==> Trimmed(r[k])
  {
    TrimKeep(NonEmpty(Split(value, KnowledgePointSeparators)))
  }

  /** No name of a list contains a separator character. */
  lemma NamesHaveNoSeparator(value: string)
    ensures AllAvoid(KnowledgePointNames(value), KnowledgePointSeparators)
  {
    var parts := Split(value, KnowledgePointSeparators);
    var ne := NonEmpty(parts);
    assert AllAvoid(ne, KnowledgePointSeparators) by {
      forall k | 0 <= k < |ne| ensures Avoids(ne[k], KnowledgePointSeparators) {
        assert ne[k] in parts;
      }
    }
    TrimKeepAvoids(ne, KnowledgePointSeparators);
  }

  // ---------------------------------------------------------------------
  // Keys and values
  // ---------------------------------------------------------------------

  const Colons: set<char> := {':', '：'}

  predicate IsColon(c: char) {
    c in Colons
  }

  /** The line matches `^([^:：]+)[：:]\s*(.+)$` with its colon at position c:
      a non-empty colon-free key, the colon, and at least one further character. */
  predicate SplitsAt(line: string, c: int) {
    1 <= c < |line| - 1 && IsColon(line[c]) && forall j :: 0 <= j < c ==> !IsColon(line[j])
  }

  /** Position of the colon that splits a line, when the line matches. */
  function SplitPoint(line: string): (r: Option<nat>)
    ensures r.Some? ==> SplitsAt(line, r.value)
    ensures r.None? ==> forall c :: !SplitsAt(line, c)
  {
    match FirstIndex(line, IsColon)
    case None => None
    case Some(c) =>
      if 1 <= c && c + 1 < |line| then Some(c)
      else None
  }

  /** Only the first colon can split a line. */
  lemma FirstColonUnique(line: string, c: nat, d: int)
    requires c < |line| && IsColon(line[c]) && forall j :: 0 <= j < c ==> !IsColon(line[j])
    requires SplitsAt(line, d)
    ensures c == d
  {
  }

  /** A line splits at one position at most. */
  lemma SplitPointUnique(line: string, c: int)
    requires SplitsAt(line, c)
    ensures SplitPoint(line) == Some(c)
  {
    FirstColonUnique(line, SplitPoint(line).value, c);
  }

  /** The trimmed key and value of a matching line. */
  function KeyValue(line: string): (r: Option<(string, string)>)
  {
    match SplitPoint(line)
    case None => None
    case Some(c) => Some((Trim(line[..c]), Trim(line[c + 1..])))
  }

  /** On a trimmed line, a match has a key and a value that are not blank,
      and the key holds no colon. */
  lemma KeyValueOfTrimmedLine(line: string)
    requires Trimmed(line)
    requires KeyValue(line).Some?
    ensures var (key, value) := KeyValue(line).value;
      !IsBlank(key) && !IsBlank(value) && Avoids(key, Colons)
  {
    var c := SplitPoint(line).value;
    KeyNotBlank(line, c);
    ValueNotBlank(line, c);
    KeyAvoidsColons(line, c);
  }

  lemma KeyNotBlank(line: string, c: int)
    requires Trimmed(line) && SplitsAt(line, c)
    ensures !IsBlank(Trim(line[..c]))
  {
    assert line[..c][0] == line[0];
    TrimNotBlank(line[..c]);
  }

  lemma ValueNotBlank(line: string, c: int)
    requires Trimmed(line) && SplitsAt(line, c)
    ensures !IsBlank(Trim(line[c + 1..]))
  {
    var valuePart := line[c + 1..];
    assert valuePart[|valuePart| - 1] == line[|line| - 1];
    TrimNotBlank(valuePart);
  }

  lemma KeyAvoidsColons(line: string, c: int)
    requires SplitsAt(line, c)
    ensures Avoids(Trim(line[..c]), Colons)
  {
    var keyPart := line[..c];
    forall i | 0 <= i < |keyPart| ensures keyPart[i] !in Colons {
      assert keyPart[i] == line[i];
    }
    TrimAvoids(keyPart, Colons);
  }

  /** Trimming a string that is not blank leaves a string that is not blank. */
  lemma TrimNotBlank(s: string)
    requires s != [] && (!IsWhite(s[0]) || !IsWhite(s[|s| - 1]))
    ensures !IsBlank(Trim(s))
  {
    TrimEmptyIffBlank(s);
    var t := Trim(s);
    assert !IsWhite(t[0]);
  }

  /** The field a key names in the ParseSingleQuestion switch. */
  datatype Field = TypeField | ContentField | OptionsField | AnswerField | ExplanationField
                 | DifficultyField | ScoreField | ChapterField | KnowledgePointsField | NoField

  /** The field a key names in the ParseSingleQuestion switch; an unknown key names none. */
  function FieldOf(key: string): Field {
    if key == "题型" || key == "类型" then TypeField
    else if key == "题干" || key == "问题" || key == "题目" then ContentField
    else if key == "选项" then OptionsField
    else if key == "答案" then AnswerField
    else if key == "解析" || key == "说明" then ExplanationField
    else if key == "难度" then DifficultyField
    else if key == "分数" || key == "分值" then ScoreField
    else if key == "章节" then ChapterField
    else if key == "知识点" then KnowledgePointsField
    else NoField
  }

  /** The alias table of question types, by lower-case spelling. */
  function TypeAlias(v: string): Option<QuestionType> {
    if v == "单选" || v == "单选题" || v == "single" || v == "singlechoice" then Some(SingleChoice)
    else if v == "多选" || v == "多选题" || v == "multiple" || v == "multiplechoice" then Some(MultipleChoice)
    else if v == "判断" || v == "判断题" || v == "truefalse" || v == "bool" then Some(TrueFalse)
    else if v == "填空" || v == "填空题" || v == "fillin" || v == "blank" then Some(FillBlank)
    else if v == "简答" || v == "简答题" || v == "essay" || v == "shortanswer" then Some(ShortAnswer)
    else if v == "材料" || v == "材料题" || v == "comprehension" then Some(Material)
    else None
  }

  /** ParseQuestionType: the lower-cased value through the alias table;
      anything else is a single-choice question. */
  function ParseQuestionType(value: string): (r: QuestionType)
    ensures TypeAlias(ToLower(value)).Some? ==> r == TypeAlias(ToLower(value)).value
    ensures TypeAlias(ToLower(value)).None? ==> r == SingleChoice
  {
    match TypeAlias(ToLower(value))
    case Some(t) => t
    case None => SingleChoice
  }

  /** A type line always sets a declared type, never the unset value 0. */
  lemma ParsedTypeIsDeclared(value: string)
    ensures ParseQuestionType(value) != Unset
  {
  }

  /** The type aliases ignore letter case. */
  lemma QuestionTypeIgnoresCase(value: string)
    ensures ParseQuestionType(ToUpper(value)) == ParseQuestionType(value)
  {
    LowerOfUpper(value);
  }

  /** The word aliases of difficulty levels, by lower-case spelling. */
  function DifficultyWord(v: string): Option<DifficultyLevel> {
    if v == "很容易" || v == "非常简单" || v == "veryeasy" then Some(VeryEasy)
    else if v == "容易" || v == "简单" || v == "easy" then Some(Easy)
    else if v == "中等" || v == "一般" || v == "medium" then Some(Medium)
    else if v == "困难" || v == "难" || v == "hard" then Some(Hard)
    else if v == "很困难" || v == "非常难" || v == "veryhard" then Some(VeryHard)
    else None
  }

  /** ParseDifficulty: an integer 1..5 gives that level and any other integer
      Medium; a word goes through the alias table, Medium when unknown. */
  function ParseDifficulty(value: string): (r: DifficultyLevel)
    ensures ParseInt(value).Some? && 1 <= ParseInt(value).value <= 5 ==> r.Code() == ParseInt(value).value
    ensures ParseInt(value).Some? && !(1 <= ParseInt(value).value <= 5) ==> r == Medium
    ensures ParseInt(value).None? && DifficultyWord(ToLower(value)).Some? ==> r == DifficultyWord(ToLower(value)).value
    ensures ParseInt(value).None? && DifficultyWord(ToLower(value)).None? ==> r == Medium
  {
    match ParseInt(value)
    case Some(level) =>
      if level == 1 then VeryEasy
      else if level == 2 then Easy
      else if level == 3 then Medium
      else if level == 4 then Hard
      else if level == 5 then VeryHard
      else Medium
    case None =>
      match DifficultyWord(ToLower(value))
      case Some(d) => d
      case None => Medium
  }

  /** Writing a level as its stored number and parsing it gives the level back. */
  lemma DifficultyRoundTrip(d: DifficultyLevel)
    ensures ParseDifficulty(IntToString(d.Code())) == d
  {
    ParseIntOfIntToString(d.Code());
  }

  /** A value written into the field its key names. */
  function ApplyField(q: ImportDto, f: Field, value: string): (r: ImportDto)
    ensures r.lineNumber == q.lineNumber
  {
    match f
    case TypeField => q.(qtype := ParseQuestionType(value))
    case ContentField => q.(content := value)
    case OptionsField => q.(options := Some(value))
    case AnswerField => q.(correctAnswer := value)
    case ExplanationField => q.(explanation := Some(value))
    case DifficultyField => q.(difficulty := ParseDifficulty(value))
    case ScoreField =>
      (match ParseInt(value)
       case Some(n) => q.(score := n)
       case None => q)
    case ChapterField => q.(chapter := Some(value))
    case KnowledgePointsField => q.(knowledgePointNames := KnowledgePointNames(value))
    case NoField => q
  }

  /** One key and value applied to the record under construction. */
  function ApplyPair(q: ImportDto, key: string, value: string): (r: ImportDto)
    ensures r.lineNumber == q.lineNumber
  {
    ApplyField(q, FieldOf(key), value)
  }

  function ApplyLine(q: ImportDto, line: string): (r: ImportDto)
    ensures r.lineNumber == q.lineNumber
  {
    match KeyValue(line)
    case None => q
    case Some(kv) => ApplyPair(q, kv.0, kv.1)
  }

  /** The lines of a piece applied in order. */
  function ApplyLines(q: ImportDto, lines: seq<string>): (r: ImportDto)
    ensures r.lineNumber == q.lineNumber
    decreases |lines|
  {
    if lines == [] then q else ApplyLine(ApplyLines(q, lines[..|lines| - 1]), lines[|lines| - 1])
  }

  /** Applying one more line of a prefix. */
  lemma ApplyLinesStep(q: ImportDto, lines: seq<string>, i: nat)
    requires i < |lines|
    ensures ApplyLines(q, lines[..i + 1]) == ApplyLine(ApplyLines(q, lines[..i]), lines[i])
  {
    assert lines[..i + 1][..i] == lines[..i];
  }

  /** The score of a `分数` line is the 32-bit integer it writes. */
  lemma ScoreRoundTrip(q: ImportDto, n: int)
    requires Int32Min <= n <= Int32Max
    ensures ApplyPair(q, "分数", IntToString(n)).score == n
  {
    ParseIntOfIntToString(n);
  }

  /** A line whose key is not in the switch leaves the record as it is. */
  lemma UnknownKeyIgnored(q: ImportDto, line: string)
    requires KeyValue(line).Some? && FieldOf(KeyValue(line).value.0) == NoField
    ensures ApplyLine(q, line) == q
  {
  }

  // ---------------------------------------------------------------------
  // Which line decides which field
  // ---------------------------------------------------------------------

  /** The two records agree on field f. */
  predicate FieldEq(a: ImportDto, b: ImportDto, f: Field) {
    match f
    case TypeField => a.qtype == b.qtype
    case ContentField => a.content == b.content
    case OptionsField => a.options == b.options
    case AnswerField => a.correctAnswer == b.correctAnswer
    case ExplanationField => a.explanation == b.explanation
    case DifficultyField => a.difficulty == b.difficulty
    case ScoreField => a.score == b.score
    case ChapterField => a.chapter == b.chapter
    case KnowledgePointsField => a.knowledgePointNames == b.knowledgePointNames
    case NoField => true
  }

  /** The line assigns field f: it matches, its key names f, and for the
      score its value parses as an integer. */
  predicate Sets(line: string, f: Field) {
    match KeyValue(line)
    case None => false
    case Some(kv) => f != NoField && FieldOf(kv.0) == f && (f == ScoreField ==> ParseInt(kv.1).Some?)
  }

  /** Some line of the piece assigns field f. */
  predicate Names(lines: seq<string>, f: Field) {
    Any(lines, (l: string) => Sets(l, f))
  }

  /** A value written into field g leaves every other field f, and f itself
      when it is the score and the value is no integer. */
  lemma ApplyFieldFrame(q: ImportDto, g: Field, value: string, f: Field)
    requires f == NoField || g != f || (f == ScoreField && ParseInt(value).None?)
    ensures FieldEq(q, ApplyField(q, g, value), f)
  {
    match g {
      case TypeField =>
      case ContentField =>
      case OptionsField =>
      case AnswerField =>
      case ExplanationField =>
      case DifficultyField =>
      case ScoreField =>
      case ChapterField =>
      case KnowledgePointsField =>
      case NoField =>
    }
  }

  /** A line changes only the field it assigns. */
  lemma ApplyLineFrame(q: ImportDto, line: string, f: Field)
    requires !Sets(line, f)
    ensures FieldEq(q, ApplyLine(q, line), f)
  {
    match KeyValue(line) {
      case None =>
      case Some(kv) => ApplyFieldFrame(q, FieldOf(kv.0), kv.1, f);
    }
  }

  /** What a line writes into the field it assigns does not depend on the record before. */
  lemma ApplyLineOverwrites(q1: ImportDto, q2: ImportDto, line: string, f: Field)
    requires Sets(line, f)
    ensures FieldEq(ApplyLine(q1, line), ApplyLine(q2, line), f)
  {
  }

  /** A field no line assigns keeps its default. */
  lemma {:induction false} UntouchedField(q: ImportDto, lines: seq<string>, f: Field)
    requires !Names(lines, f)
    ensures FieldEq(q, ApplyLines(q, lines), f)
    decreases |lines|
  {
    if lines != [] {
      var init := lines[..|lines| - 1];
      assert !Names(init, f) by {
        forall k | 0 <= k < |init| ensures !Sets(init[k], f) {
          assert init[k] == lines[k];
        }
      }
      UntouchedField(q, init, f);
      ApplyLineFrame(ApplyLines(q, init), lines[|lines| - 1], f);
    }
  }

  /** A later line overwrites an earlier one: the field holds what the last
      line assigning it wrote. */
  lemma {:induction false} LastLineWins(q: ImportDto, lines: seq<string>, i: nat, f: Field)
    requires i < |lines| && Sets(lines[i], f)
    requires forall j :: i < j < |lines| ==> !Sets(lines[j], f)
    ensures FieldEq(ApplyLines(q, lines), ApplyLine(q, lines[i]), f)
    decreases |lines|
  {
    var init := lines[..|lines| - 1];
    var before := ApplyLines(q, init);
    if i == |lines| - 1 {
      ApplyLineOverwrites(before, q, lines[i], f);
    } else {
      SettersOfInit(lines, i, f);
      LastLineWins(q, init, i, f);
      ApplyLineFrame(before, lines[|lines| - 1], f);
    }
  }

  /** Dropping the last line keeps an earlier last setter the last one. */
  lemma SettersOfInit(lines: seq<string>, i: nat, f: Field)
    requires i < |lines| - 1 && Sets(lines[i], f)
    requires forall j :: i < j < |lines| ==> !Sets(lines[j], f)
    ensures var init := lines[..|lines| - 1];
      Sets(init[i], f) && forall j :: i < j < |init| ==> !Sets(init[j], f)
  {
    var init := lines[..|lines| - 1];
    assert init[i] == lines[i];
    forall j | i < j < |init| ensures !Sets(init[j], f) {
      assert init[j] == lines[j];
    }
  }

  /** Within one record, the content (ContentField) or the answer (AnswerField). */
  function TextField(q: ImportDto, f: Field): string
    requires f == ContentField || f == AnswerField
  {
    if f == ContentField then q.content else q.correctAnswer
  }

  /** Over trimmed lines, the content or answer is non-blank exactly when it
      was before or some line assigns it. */
  lemma {:induction false} TextFieldPresent(q: ImportDto, lines: seq<string>, f: Field)
    requires f == ContentField || f == AnswerField
    requires forall k :: 0 <= k < |lines| ==> Trimmed(lines[k])
    ensures !IsBlank(TextField(ApplyLines(q, lines), f)) <==> !IsBlank(TextField(q, f)) || Names(lines, f)
    decreases |lines|
  {
    if lines != [] {
      var init := lines[..|lines| - 1];
      var last := lines[|lines| - 1];
      forall k | 0 <= k < |init| ensures Trimmed(init[k]) {
        assert init[k] == lines[k];
      }
      TextFieldPresent(q, init, f);
      var before := ApplyLines(q, init);
      assert ApplyLines(q, lines) == ApplyLine(before, last);
      AnyOfInit(lines, (l: string) => Sets(l, f));
      if Sets(last, f) {
        var kv := KeyValue(last).value;
        KeyValueOfTrimmedLine(last);
        assert ApplyLine(before, last) == ApplyField(before, f, kv.1);
        assert TextField(ApplyLines(q, lines), f) == kv.1;
        assert Sets(lines[|lines| - 1], f);
      } else {
        ApplyLineFrame(before, last, f);
        assert TextField(ApplyLines(q, lines), f) == TextField(before, f);
      }
    }
  }

  // ---------------------------------------------------------------------
  // One piece (ParseSingleQuestion)
  // ---------------------------------------------------------------------

  /** The outcome of ParseSingleQuestion on one piece. */
  function SingleQuestion(piece: string, lineNumber: int): PieceResult {
    var lines := Lines(piece);
    if lines == [] then Skipped
    else
      var q := ApplyLines(Defaults(lineNumber), lines);
      if IsBlank(q.content) then Failed(MsgContentRequired)
      else if IsBlank(q.correctAnswer) then Failed(MsgAnswerRequired)
      else Parsed(q)
  }

  /** A non-blank piece is never skipped; it fails for want of content
      exactly when no line assigns the content, then for want of an answer
      exactly when no line assigns the answer, and otherwise yields a record
      carrying its line number. */
  lemma PieceOutcome(piece: string, lineNumber: int)
    requires !IsBlank(piece)
    ensures var lines := Lines(piece);
      && !SingleQuestion(piece, lineNumber).Skipped?
      && (SingleQuestion(piece, lineNumber) == Failed(MsgContentRequired) <==> !Names(lines, ContentField))
      && (SingleQuestion(piece, lineNumber) == Failed(MsgAnswerRequired) <==>
            Names(lines, ContentField) && !Names(lines, AnswerField))
      && (SingleQuestion(piece, lineNumber).Parsed? <==> Names(lines, ContentField) && Names(lines, AnswerField))
      && (SingleQuestion(piece, lineNumber).Parsed? ==> SingleQuestion(piece, lineNumber).record.lineNumber == lineNumber)
  {
    NonBlankHasLine(piece);
    var lines := Lines(piece);
    assert IsBlank(Defaults(lineNumber).content) && IsBlank(Defaults(lineNumber).correctAnswer);
    TextFieldPresent(Defaults(lineNumber), lines, ContentField);
    TextFieldPresent(Defaults(lineNumber), lines, AnswerField);
  }

  /** A piece without a type line keeps type value 0. */
  lemma NoTypeLineKeepsUnset(piece: string, lineNumber: int)
    requires SingleQuestion(piece, lineNumber).Parsed?
    requires !Names(Lines(piece), TypeField)
    ensures SingleQuestion(piece, lineNumber).record.qtype == Unset
  {
    UntouchedField(Defaults(lineNumber), Lines(piece), TypeField);
  }

  /** ParseSingleQuestion: the lines applied to a fresh record in order,
      then the two required fields checked. */
  method ParseSingleQuestion(piece: string, lineNumber: int) returns (r: PieceResult)
    ensures r == SingleQuestion(piece, lineNumber)
  {
    var lines := Lines(piece);
    if |lines| == 0 {
      return Skipped;
    }
    var question := Defaults(lineNumber);
    for i := 0 to |lines|
      invariant question == ApplyLines(Defaults(lineNumber), lines[..i])
    {
      ApplyLinesStep(Defaults(lineNumber), lines, i);
      question := ApplyLine(question, lines[i]);
    }
    assert lines[..|lines|] == lines;
    if IsBlank(question.content) {
      return Failed(MsgContentRequired);
    }
    if IsBlank(question.correctAnswer) {
      return Failed(MsgAnswerRequired);
    }
    return Parsed(question);
  }

  // ---------------------------------------------------------------------
  // The whole text (ParseQuestionText)
  // ---------------------------------------------------------------------

  /** Split("---", RemoveEmptyEntries). */
  function Pieces(content: string): seq<string> {
    NonEmpty(SplitOnString(content, "---"))
  }

  /** The record kept for a failed piece: its line number and the message
      behind the prefix, every other field at its default. */
  function ErrorRecord(lineNumber: int, message: string): (d: ImportDto)
    ensures StartsWith(d.content, ParseFailurePrefix)
  {
    Defaults(lineNumber).(content := ParseFailurePrefix + message)
  }

  /** The records one piece contributes. */
  function RecordsOf(piece: string, lineNumber: int): (r: seq<ImportDto>)
    ensures |r| <= 1 && forall k :: 0 <= k < |r| ==> r[k].lineNumber == lineNumber
  {
    match SingleQuestion(piece, lineNumber)
    case Skipped => []
    case Parsed(d) => [d]
    case Failed(m) => [ErrorRecord(lineNumber, m)]
  }

  /** A whole-text line number: 1, advanced after each non-blank piece by its
      count of '\n'-separated segments; blank pieces do not advance it. */
  function LineNumberAfter(pieces: seq<string>): (n: int)
    ensures n >= 1
    decreases |pieces|
  {
    if pieces == [] then 1
    else
      var last := pieces[|pieces| - 1];
      LineNumberAfter(pieces[..|pieces| - 1]) + (if IsBlank(last) then 0 else |Split(last, {'\n'})|)
  }

  /** The records of a sequence of pieces, in order. Line numbers start at 1,
      stay below the number after the last piece, and strictly increase. */
  function ParseBlocks(pieces: seq<string>): (r: seq<ImportDto>)
    ensures |r| <= |pieces|
    ensures forall k :: 0 <= k < |r| ==> 1 <= r[k].lineNumber < LineNumberAfter(pieces)
    ensures forall i, j :: 0 <= i < j < |r| ==> r[i].lineNumber < r[j].lineNumber
    decreases |pieces|
  {
    if pieces == [] then []
    else
      var init := pieces[..|pieces| - 1];
      var last := pieces[|pieces| - 1];
      if IsBlank(last) then ParseBlocks(init)
      else ParseBlocks(init) + RecordsOf(last, LineNumberAfter(init))
  }

  /** ParseQuestionText yields exactly one record per non-blank piece: the
      record of piece i sits after the records of the non-blank pieces before
      it and carries the line number those pieces reach. A parsed piece gives
      its record; a failed one an error record whose content starts with the
      failure prefix. */
  lemma OneRecordPerPiece(pieces: seq<string>)
    ensures |ParseBlocks(pieces)| == Count(pieces, IsNonBlank)
    ensures forall i :: 0 <= i < |pieces| && !IsBlank(pieces[i]) ==>
      && Count(pieces[..i], IsNonBlank) < |ParseBlocks(pieces)|
      && [ParseBlocks(pieces)[Count(pieces[..i], IsNonBlank)]] == RecordsOf(pieces[i], LineNumberAfter(pieces[..i]))
  {
    BlockCount(pieces);
    forall i | 0 <= i < |pieces| && !IsBlank(pieces[i])
      ensures Count(pieces[..i], IsNonBlank) < |ParseBlocks(pieces)|
      ensures [ParseBlocks(pieces)[Count(pieces[..i], IsNonBlank)]] == RecordsOf(pieces[i], LineNumberAfter(pieces[..i]))
    {
      BlockAt(pieces, i);
    }
  }

  /** One record per non-blank piece. */
  lemma {:induction false} BlockCount(pieces: seq<string>)
    ensures |ParseBlocks(pieces)| == Count(pieces, IsNonBlank)
    decreases |pieces|
  {
    if pieces != [] {
      var init := pieces[..|pieces| - 1];
      var last := pieces[|pieces| - 1];
      BlockCount(init);
      assert pieces == init + [last];
      CountAppendOne(init, last, IsNonBlank);
      if !IsBlank(last) {
        PieceOutcome(last, LineNumberAfter(init));
      }
    }
  }

  /** The record of the non-blank piece at position i. */
  lemma {:induction false} BlockAt(pieces: seq<string>, i: nat)
    requires i < |pieces| && !IsBlank(pieces[i])
    ensures Count(pieces[..i], IsNonBlank) < |ParseBlocks(pieces)|
    ensures [ParseBlocks(pieces)[Count(pieces[..i], IsNonBlank)]] == RecordsOf(pieces[i], LineNumberAfter(pieces[..i]))
    decreases |pieces|
  {
    var init := pieces[..|pieces| - 1];
    var last := pieces[|pieces| - 1];
    BlockCount(init);
    if i == |pieces| - 1 {
      assert pieces[..i] == init;
      PieceOutcome(last, LineNumberAfter(init));
    } else {
      assert pieces[..i] == init[..i];
      assert pieces[i] == init[i];
      BlockAt(init, i);
      var k := Count(init[..i], IsNonBlank);
      assert ParseBlocks(pieces)[k] == ParseBlocks(init)[k];
    }
  }

  /** A failed piece's error record has content but no answer, so saving it
      always fails with the missing-answer message. */
  lemma ErrorRecordIsRejected(lineNumber: int, message: string)
    ensures ValidateQuestion(ErrorRecord(lineNumber, message)) == Some(MsgAnswerRequired)
  {
    assert ErrorRecord(lineNumber, message).content[0] == '解';
  }

  /** A parsed record already passes the content and answer checks of the save. */
  lemma ParsedRecordHasContentAndAnswer(piece: string, lineNumber: int)
    requires SingleQuestion(piece, lineNumber).Parsed?
    ensures var v := ValidateQuestion(SingleQuestion(piece, lineNumber).record);
      v != Some(MsgContentRequired) && v != Some(MsgAnswerRequired)
  {
  }

  /** ParseQuestionText: the pieces scanned in order with a running line number. */
  method ParseQuestionText(content: string) returns (questions: seq<ImportDto>)
    ensures questions == ParseBlocks(Pieces(content))
  {
    var pieces := Pieces(content);
    questions := [];
    var lineNumber := 1;
    for i := 0 to |pieces|
      invariant questions == ParseBlocks(pieces[..i])
      invariant lineNumber == LineNumberAfter(pieces[..i])
    {
      assert pieces[..i + 1][..i] == pieces[..i];
      var piece := pieces[i];
      if IsBlank(piece) {
        continue;
      }
      var r := ParseSingleQuestion(piece, lineNumber);
      match r {
        case Parsed(d) => questions := questions + [d];
        case Failed(m) => questions := questions + [ErrorRecord(lineNumber, m)];
        case Skipped =>
      }
      lineNumber := lineNumber + |Split(piece, {'\n'})|;
    }
    assert pieces[..|pieces|] == pieces;
  }

  // ---------------------------------------------------------------------
  // Validation (ValidateQuestion)
  // ---------------------------------------------------------------------

  /** The first check a record fails, if any: content, answer, options of a
      choice question, positive score. */
  function ValidateQuestion(d: ImportDto): (r: Option<string>)
    ensures r.None? <==> && !IsBlank(d.content) && !IsBlank(d.correctAnswer)
                         && (d.qtype.IsChoice() ==> !IsNullOrBlank(d.options))
                         && d.score > 0
    ensures IsBlank(d.content) ==> r == Some(MsgContentRequired)
    ensures !IsBlank(d.content) && IsBlank(d.correctAnswer) ==> r == Some(MsgAnswerRequired)
  {
    if IsBlank(d.content) then Some(MsgContentRequired)
    else if IsBlank(d.correctAnswer) then Some(MsgAnswerRequired)
    else if (d.qtype == SingleChoice || d.qtype == MultipleChoice) && IsNullOrBlank(d.options) then Some(MsgOptionsRequired)
    else if d.score <= 0 then Some(MsgScorePositive)
    else None
  }
}
