/** `ExamRepository` (functions/repositories/exam_repo.py): the latest exam
    attempts of a student, each rebuilt as attempt -> question results ->
    answer results from three flat fetches. */
module ExamRepo {
  import opened Wrappers
  import opened Seqs
  import opened Rows
  import opened Identifiers
  import opened Grouping
  import opened Queries

  /** The field under which each question result carries its answer results. */
  const AnswersField: string := "_answers"

  /** The inclusive bounds of the attempt-count guardrail. */
  const MinAttempts: int := 1
  const MaxAttempts: int := 5

  /** The repository's configuration. The client handle is passed to each
      operation instead of being stored. */
  datatype ExamRepository = ExamRepository(
    dataset: string,
    examResultTable: string,
    examQuestionResultTable: string,
    examAnswerResultTable: string,
    orderColumn: string,
    studentColumn: string,
    testColumn: string,
    examResultIdColumn: string,
    questionResultIdColumn: string,
    questionResultFkColumn: string,
    answerResultFkColumn: string)
  {
    /** The seven column names, in the order the constructor checks them. */
    function ColumnChecks(): seq<ColumnCheck> {
      [ ColumnCheck(orderColumn, "order column"),
        ColumnCheck(studentColumn, "student column"),
        ColumnCheck(testColumn, "test column"),
        ColumnCheck(examResultIdColumn, "exam result id column"),
        ColumnCheck(questionResultIdColumn, "question result id column"),
        ColumnCheck(questionResultFkColumn, "question result FK column"),
        ColumnCheck(answerResultFkColumn, "answer result FK column") ]
    }

    /** Every configured column name passed the allow-list check. */
    predicate Valid() {
      forall i :: 0 <= i < |ColumnChecks()| ==> IsSafeIdentifier(ColumnChecks()[i].identifier)
    }
  }

  /** `ExamRepository.__init__`: validates the seven column names in order and
      raises for the first invalid one; the dataset and the three table names
      are stored as given, without validation. */
  function NewExamRepository(
    dataset: string,
    examResultTable: string,
    examQuestionResultTable: string,
    examAnswerResultTable: string,
    orderColumn: string,
    studentColumn: string,
    testColumn: string,
    examResultIdColumn: string,
    questionResultIdColumn: string,
    questionResultFkColumn: string,
    answerResultFkColumn: string): (r: Result<ExamRepository, Error>)
    ensures r.Success? <==>
      && IsSafeIdentifier(orderColumn)
      && IsSafeIdentifier(studentColumn)
      && IsSafeIdentifier(testColumn)
      && IsSafeIdentifier(examResultIdColumn)
      && IsSafeIdentifier(questionResultIdColumn)
      && IsSafeIdentifier(questionResultFkColumn)
      && IsSafeIdentifier(answerResultFkColumn)
    ensures r.Success? ==> r.value.Valid()
    ensures r.Success? ==> r.value == ExamRepository(
      dataset, examResultTable, examQuestionResultTable, examAnswerResultTable,
      orderColumn, studentColumn, testColumn, examResultIdColumn,
      questionResultIdColumn, questionResultFkColumn, answerResultFkColumn)
    ensures r.Failure? ==> FirstInvalid([
      ColumnCheck(orderColumn, "order column"),
      ColumnCheck(studentColumn, "student column"),
      ColumnCheck(testColumn, "test column"),
      ColumnCheck(examResultIdColumn, "exam result id column"),
      ColumnCheck(questionResultIdColumn, "question result id column"),
      ColumnCheck(questionResultFkColumn, "question result FK column"),
      ColumnCheck(answerResultFkColumn, "answer result FK column")], r.error)
  {
    var repo := ExamRepository(
      dataset, examResultTable, examQuestionResultTable, examAnswerResultTable,
      orderColumn, studentColumn, testColumn, examResultIdColumn,
      questionResultIdColumn, questionResultFkColumn, answerResultFkColumn);
    var checks := repo.ColumnChecks();
    match CheckIdentifiers(checks)
    case Fail(e) => Failure(e)
    case Pass =>
      assert IsSafeIdentifier(checks[0].identifier) && IsSafeIdentifier(checks[1].identifier)
        && IsSafeIdentifier(checks[2].identifier) && IsSafeIdentifier(checks[3].identifier)
        && IsSafeIdentifier(checks[4].identifier) && IsSafeIdentifier(checks[5].identifier)
        && IsSafeIdentifier(checks[6].identifier);
      Success(repo)
  }

  /** `max(1, min(limit, 5))`: the guardrail on the number of attempts fetched. */
  function ClampLimit(limit: int): (r: int)
    ensures MinAttempts <= r <= MaxAttempts
    ensures MinAttempts <= limit <= MaxAttempts ==> r == limit
    ensures limit < MinAttempts ==> r == MinAttempts
    ensures limit > MaxAttempts ==> r == MaxAttempts
  {
    var capped := if limit < MaxAttempts then limit else MaxAttempts;
    if MinAttempts > capped then MinAttempts else capped
  }

  /** One attempt: the exam-result row and its question results, each carrying its answers. */
  datatype Attempt = Attempt(examResult: Row, questions: seq<Row>)

  /** `{**row, "_answers": answers}`: the row with only the `_answers` field
      added or overwritten. */
  function Enrich(row: Row, answers: seq<Row>): (r: Row)
    ensures AnswersField in r && r[AnswersField] == RowsValue(answers)
    ensures forall k :: k != AnswersField ==> (k in r <==> k in row)
    ensures forall k :: k != AnswersField && k in row ==> r[k] == row[k]
  {
    row[AnswersField := RowsValue(answers)]
  }

  // Reference definitions of the assembled tree, stated with the group
  // definition `Matching` rather than with the dictionary index.

  /** The answer results belonging to a question result. */
  function AnswersOf(repo: ExamRepository, answers: seq<Row>, question: Row): seq<Row> {
    Matching(answers, repo.answerResultFkColumn, Get(question, repo.questionResultIdColumn))
  }

  /** Every question result, in fetch order, with its answers attached. */
  function EnrichedQuestions(repo: ExamRepository, questions: seq<Row>, answers: seq<Row>): seq<Row> {
    seq(|questions|, j requires 0 <= j < |questions| => Enrich(questions[j], AnswersOf(repo, answers, questions[j])))
  }

  /** The enriched question results belonging to an exam result. */
  function QuestionsOf(repo: ExamRepository, questions: seq<Row>, answers: seq<Row>, exam: Row): seq<Row> {
    Matching(EnrichedQuestions(repo, questions, answers), repo.questionResultFkColumn, Get(exam, repo.examResultIdColumn))
  }

  /** No dictionary key or lookup value met during assembly is a list or dict. */
  predicate AssemblyHashable(repo: ExamRepository, exam: seq<Row>, questions: seq<Row>, answers: seq<Row>) {
    && KeysHashable(answers, repo.answerResultFkColumn)
    && KeysHashable(questions, repo.questionResultIdColumn)
    && KeysHashable(EnrichedQuestions(repo, questions, answers), repo.questionResultFkColumn)
    && KeysHashable(exam, repo.examResultIdColumn)
  }

  /** The list comprehension that attaches `answers_by_question_id.get(row.get(id), [])`
      to every question result, in order. */
  function EnrichAll(questions: seq<Row>, byQuestion: Groups, idColumn: string): (r: Result<seq<Row>, Error>)
    ensures r.Success? <==> KeysHashable(questions, idColumn)
    ensures r.Failure? ==> r.error == UnhashableKey
    ensures r.Success? ==> |r.value| == |questions|
    ensures r.Success? ==> forall j :: 0 <= j < |questions| ==>
      Lookup(byQuestion, Get(questions[j], idColumn)).Success?
      && r.value[j] == Enrich(questions[j], Lookup(byQuestion, Get(questions[j], idColumn)).value)
  {
    if |questions| == 0 then Success([])
    else
      assert forall j :: 1 <= j < |questions| ==> questions[j] == questions[1..][j - 1];
      var found :- Lookup(byQuestion, Get(questions[0], idColumn));
      var rest :- EnrichAll(questions[1..], byQuestion, idColumn);
      Success([Enrich(questions[0], found)] + rest)
  }

  /** The final loop: one attempt per exam result, in fetch order, holding
      `questions_by_exam_id.get(result.get(id), [])`. */
  function BuildAttempts(exam: seq<Row>, byExam: Groups, idColumn: string): (r: Result<seq<Attempt>, Error>)
    ensures r.Success? <==> KeysHashable(exam, idColumn)
    ensures r.Failure? ==> r.error == UnhashableKey
    ensures r.Success? ==> |r.value| == |exam|
    ensures r.Success? ==> forall i :: 0 <= i < |exam| ==>
      Lookup(byExam, Get(exam[i], idColumn)).Success?
      && r.value[i] == Attempt(exam[i], Lookup(byExam, Get(exam[i], idColumn)).value)
  {
    if |exam| == 0 then Success([])
    else
      assert forall i :: 1 <= i < |exam| ==> exam[i] == exam[1..][i - 1];
      var found :- Lookup(byExam, Get(exam[0], idColumn));
      var rest :- BuildAttempts(exam[1..], byExam, idColumn);
      Success([Attempt(exam[0], found)] + rest)
  }

  /** The dictionary-based enrichment agrees with the reference definition. */
  lemma EnrichAllIsReference(repo: ExamRepository, questions: seq<Row>, answers: seq<Row>)
    requires GroupBy(answers, repo.answerResultFkColumn).Success?
    requires EnrichAll(questions, GroupBy(answers, repo.answerResultFkColumn).value, repo.questionResultIdColumn).Success?
    ensures EnrichAll(questions, GroupBy(answers, repo.answerResultFkColumn).value, repo.questionResultIdColumn).value
            == EnrichedQuestions(repo, questions, answers)
  {
    forall j | 0 <= j < |questions| {
      LookupIsMatching(answers, repo.answerResultFkColumn, Get(questions[j], repo.questionResultIdColumn));
    }
  }

  /** The dictionary-based attempt loop agrees with the reference definition. */
  lemma BuildAttemptsIsReference(repo: ExamRepository, exam: seq<Row>, questions: seq<Row>, answers: seq<Row>)
    requires GroupBy(EnrichedQuestions(repo, questions, answers), repo.questionResultFkColumn).Success?
    requires BuildAttempts(exam, GroupBy(EnrichedQuestions(repo, questions, answers), repo.questionResultFkColumn).value, repo.examResultIdColumn).Success?
    ensures var r := BuildAttempts(exam, GroupBy(EnrichedQuestions(repo, questions, answers), repo.questionResultFkColumn).value, repo.examResultIdColumn).value;
            forall i :: 0 <= i < |exam| ==> r[i] == Attempt(exam[i], QuestionsOf(repo, questions, answers, exam[i]))
  {
    forall i | 0 <= i < |exam| {
      LookupIsMatching(EnrichedQuestions(repo, questions, answers), repo.questionResultFkColumn, Get(exam[i], repo.examResultIdColumn));
    }
  }

  /** Lines 59-82 of `get_latest_attempts`: group the answers by question
      result, attach them, group the enriched question results by exam result
      and emit one attempt per exam-result row. */
  function AssembleAttempts(repo: ExamRepository, exam: seq<Row>, questions: seq<Row>, answers: seq<Row>)
    : (r: Result<seq<Attempt>, Error>)
    ensures r.Success? <==> AssemblyHashable(repo, exam, questions, answers)
    ensures r.Failure? ==> r.error == UnhashableKey
    ensures r.Success? ==> |r.value| == |exam|
    ensures r.Success? ==> forall i :: 0 <= i < |exam| ==>
      r.value[i] == Attempt(exam[i], QuestionsOf(repo, questions, answers, exam[i]))
  {
    var byQuestion :- GroupBy(answers, repo.answerResultFkColumn);
    var enriched :- EnrichAll(questions, byQuestion, repo.questionResultIdColumn);
    EnrichAllIsReference(repo, questions, answers);
    var byExam :- GroupBy(enriched, repo.questionResultFkColumn);
    var attempts :- BuildAttempts(exam, byExam, repo.examResultIdColumn);
    BuildAttemptsIsReference(repo, exam, questions, answers);
    Success(attempts)
  }

  /** `_fetch_exam_results`: student and test ids are bound parameters; the
      three column names, the table reference and the clamped limit are text. */
  function ExamResultsQuery(repo: ExamRepository, client: Client, studentId: string, testId: string, limit: int): Query {
    Query(
      ExamResults,
      QueryText(client.tableRef(repo.dataset, repo.examResultTable),
                [repo.studentColumn, repo.testColumn, repo.orderColumn], Some(limit)),
      [StringParam("student_id", studentId), StringParam("test_id", testId)])
  }

  /** `_fetch_question_results`: the exam-result ids are one bound array parameter. */
  function QuestionResultsQuery(repo: ExamRepository, client: Client, examResultIds: seq<Value>): Query {
    Query(
      QuestionResults,
      QueryText(client.tableRef(repo.dataset, repo.examQuestionResultTable), [repo.questionResultFkColumn], None),
      [StringArrayParam("exam_result_ids", examResultIds)])
  }

  /** `_fetch_answer_results`: the question-result ids are one bound array parameter. */
  function AnswerResultsQuery(repo: ExamRepository, client: Client, questionResultIds: seq<Value>): Query {
    Query(
      AnswerResults,
      QueryText(client.tableRef(repo.dataset, repo.examAnswerResultTable), [repo.answerResultFkColumn], None),
      [StringArrayParam("question_result_ids", questionResultIds)])
  }

  /** `get_latest_attempts(student_id, test_id, limit)`: three dependent
      fetches with two short-circuits, then assembly. Returns the attempts
      and the queries issued, in order. */
  function LatestAttempts(repo: ExamRepository, client: Client, studentId: string, testId: string, limit: int)
    : (t: Traced<seq<Attempt>>)
    // the exam-result fetch always comes first, with the clamped limit
    ensures 1 <= |t.issued| <= 3
    ensures t.issued[0] == ExamResultsQuery(repo, client, studentId, testId, ClampLimit(limit))
    // no exam results: nothing else is fetched and there are no attempts
    ensures var exam := client.run(t.issued[0]);
            |exam| == 0 <==> |t.issued| == 1
    ensures |t.issued| == 1 ==> t.result == Success([])
    // otherwise the question fetch is issued even when no exam row carries an id
    ensures var exam := client.run(t.issued[0]);
            |t.issued| > 1 ==> t.issued[1] == QuestionResultsQuery(repo, client, IdsOf(exam, repo.examResultIdColumn))
    // the answer fetch is issued exactly when some question row carries an id
    ensures |t.issued| > 1 ==>
            var questions := client.run(t.issued[1]);
            (|t.issued| == 3 <==> exists j :: 0 <= j < |questions| && repo.questionResultIdColumn in questions[j])
    ensures |t.issued| == 3 ==>
            t.issued[2] == AnswerResultsQuery(repo, client, IdsOf(client.run(t.issued[1]), repo.questionResultIdColumn))
    // the fetched rows are assembled, with no answers when the answer fetch was skipped
    ensures |t.issued| > 1 ==>
            var exam := client.run(t.issued[0]);
            var questions := client.run(t.issued[1]);
            var answers := if |t.issued| == 3 then client.run(t.issued[2]) else [];
            t.result == AssembleAttempts(repo, exam, questions, answers)
  {
    var q1 := ExamResultsQuery(repo, client, studentId, testId, ClampLimit(limit));
    var exam := client.run(q1);
    if |exam| == 0 then
      Traced(Success([]), [q1])
    else
      var q2 := QuestionResultsQuery(repo, client, IdsOf(exam, repo.examResultIdColumn));
      var questions := client.run(q2);
      var questionIds := IdsOf(questions, repo.questionResultIdColumn);
      if |questionIds| == 0 then
        Traced(AssembleAttempts(repo, exam, questions, []), [q1, q2])
      else
        var q3 := AnswerResultsQuery(repo, client, questionIds);
        Traced(AssembleAttempts(repo, exam, questions, client.run(q3)), [q1, q2, q3])
  }

  /** `limit = 0` behaves as `limit = 1` and `limit = 100` as `limit = 5`: the
      whole call depends on the limit only through its clamped value. */
  lemma LatestAttemptsDependOnClampedLimit(repo: ExamRepository, client: Client, studentId: string, testId: string, limit: int)
    ensures LatestAttempts(repo, client, studentId, testId, limit)
            == LatestAttempts(repo, client, studentId, testId, ClampLimit(limit))
  {
  }

  /** On a validated repository every issued query formats only checked
      column identifiers into its text. */
  lemma LatestAttemptsInterpolateSafely(repo: ExamRepository, client: Client, studentId: string, testId: string, limit: int)
    requires repo.Valid()
    ensures var t := LatestAttempts(repo, client, studentId, testId, limit);
            forall k :: 0 <= k < |t.issued| ==> InterpolatesSafely(t.issued[k])
  {
    var checks := repo.ColumnChecks();
    assert IsSafeIdentifier(checks[0].identifier) && IsSafeIdentifier(checks[1].identifier)
      && IsSafeIdentifier(checks[2].identifier) && IsSafeIdentifier(checks[5].identifier)
      && IsSafeIdentifier(checks[6].identifier);
    var t := LatestAttempts(repo, client, studentId, testId, limit);
    forall k | 0 <= k < |t.issued| ensures InterpolatesSafely(t.issued[k]) {
      if k == 0 {
        assert t.issued[0] == ExamResultsQuery(repo, client, studentId, testId, ClampLimit(limit));
      } else if k == 1 {
        assert t.issued[1] == QuestionResultsQuery(repo, client, IdsOf(client.run(t.issued[0]), repo.examResultIdColumn));
      } else {
        assert t.issued[2] == AnswerResultsQuery(repo, client, IdsOf(client.run(t.issued[1]), repo.questionResultIdColumn));
      }
    }
  }

  /** The student and test ids never reach the query text: they are the two
      bound parameters of the exam-result query, whose text is the same for
      every pair of ids. */
  lemma LatestAttemptsBindRequestValues(
    repo: ExamRepository, client: Client, studentId: string, testId: string,
    otherStudentId: string, otherTestId: string, limit: int)
    ensures var t := LatestAttempts(repo, client, studentId, testId, limit);
            t.issued[0].params == [StringParam("student_id", studentId), StringParam("test_id", testId)]
    ensures LatestAttempts(repo, client, studentId, testId, limit).issued[0].text
            == LatestAttempts(repo, client, otherStudentId, otherTestId, limit).issued[0].text
  {
  }

  /** The shape of every attempt: its questions are an order-preserving
      subsequence of the enriched question results, each with a foreign key
      equal to the attempt's exam-result id, and none at all when that id is
      missing or `None`; each question carries, under `_answers`, the
      order-preserving subsequence of answer results whose foreign key equals
      the question's id. */
  lemma {:induction false} AttemptShape(repo: ExamRepository, exam: seq<Row>, questions: seq<Row>, answers: seq<Row>)
    requires AssembleAttempts(repo, exam, questions, answers).Success?
    ensures var r := AssembleAttempts(repo, exam, questions, answers).value;
            forall i :: 0 <= i < |exam| ==>
              && r[i].examResult == exam[i]
              && IsSubsequence(r[i].questions, EnrichedQuestions(repo, questions, answers))
              && (Get(exam[i], repo.examResultIdColumn) == VNull ==> r[i].questions == [])
              && (forall q :: q in r[i].questions ==>
                    Get(q, repo.questionResultFkColumn) != VNull
                    && Canon(Get(q, repo.questionResultFkColumn)) == Canon(Get(exam[i], repo.examResultIdColumn)))
    ensures forall j :: 0 <= j < |questions| ==>
              var a := AnswersOf(repo, answers, questions[j]);
              && EnrichedQuestions(repo, questions, answers)[j] == Enrich(questions[j], a)
              && IsSubsequence(a, answers)
              && (Get(questions[j], repo.questionResultIdColumn) == VNull ==> a == [])
              && (forall x :: x in a ==>
                    Get(x, repo.answerResultFkColumn) != VNull
                    && Canon(Get(x, repo.answerResultFkColumn)) == Canon(Get(questions[j], repo.questionResultIdColumn)))
  {
    var enriched := EnrichedQuestions(repo, questions, answers);
    forall i | 0 <= i < |exam| {
      MatchingIsGroup(enriched, repo.questionResultFkColumn, Get(exam[i], repo.examResultIdColumn));
    }
    forall j | 0 <= j < |questions| {
      MatchingIsGroup(answers, repo.answerResultFkColumn, Get(questions[j], repo.questionResultIdColumn));
    }
  }
}
