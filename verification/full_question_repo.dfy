/** `FullQuestionRepository` (functions/repositories/full_question_repo.py):
    the questions of a test, each paired with its answers, from two flat
    fetches. */
module FullQuestionRepo {
  import opened Wrappers
  import opened Seqs
  import opened Rows
  import opened Identifiers
  import opened Grouping
  import opened Queries

  /** The repository's configuration; the client is passed to each operation. */
  datatype FullQuestionRepository = FullQuestionRepository(
    dataset: string,
    questionTable: string,
    answerTable: string,
    testIdColumn: string,
    questionIdColumn: string,
    answerFkColumn: string)
  {
    /** The three column names, in the order the constructor checks them. */
    function ColumnChecks(): seq<ColumnCheck> {
      [ ColumnCheck(testIdColumn, "test id column"),
        ColumnCheck(questionIdColumn, "question result id column"),
        ColumnCheck(answerFkColumn, "answer result FK column") ]
    }

    predicate Valid() {
      forall i :: 0 <= i < |ColumnChecks()| ==> IsSafeIdentifier(ColumnChecks()[i].identifier)
    }
  }

  /** `FullQuestionRepository.__init__`: validates the three column names in
      order with the shared check; the dataset and table names are stored as
      given, without validation. */
  function NewFullQuestionRepository(
    dataset: string,
    questionTable: string,
    answerTable: string,
    testIdColumn: string,
    questionIdColumn: string,
    answerFkColumn: string): (r: Result<FullQuestionRepository, Error>)
    ensures r.Success? <==>
      IsSafeIdentifier(testIdColumn) && IsSafeIdentifier(questionIdColumn) && IsSafeIdentifier(answerFkColumn)
    ensures r.Success? ==> r.value.Valid()
    ensures r.Success? ==> r.value == FullQuestionRepository(
      dataset, questionTable, answerTable, testIdColumn, questionIdColumn, answerFkColumn)
    ensures r.Failure? ==> FirstInvalid([
      ColumnCheck(testIdColumn, "test id column"),
      ColumnCheck(questionIdColumn, "question result id column"),
      ColumnCheck(answerFkColumn, "answer result FK column")], r.error)
  {
    var repo := FullQuestionRepository(
      dataset, questionTable, answerTable, testIdColumn, questionIdColumn, answerFkColumn);
    var checks := repo.ColumnChecks();
    match CheckIdentifiers(checks)
    case Fail(e) => Failure(e)
    case Pass =>
      assert IsSafeIdentifier(checks[0].identifier) && IsSafeIdentifier(checks[1].identifier)
        && IsSafeIdentifier(checks[2].identifier);
      Success(repo)
  }

  /** One question paired with its answers. */
  datatype QuestionTree = QuestionTree(question: Row, answers: seq<Row>)

  /** The answers belonging to a question, in fetch order (reference definition). */
  function AnswersOf(repo: FullQuestionRepository, answers: seq<Row>, question: Row): seq<Row> {
    Matching(answers, repo.answerFkColumn, Get(question, repo.questionIdColumn))
  }

  /** The payload loop: one tree per question, in fetch order, holding
      `answers_by_question.get(question.get(id), [])`. */
  function BuildTrees(questions: seq<Row>, byQuestion: Groups, idColumn: string): (r: Result<seq<QuestionTree>, Error>)
    ensures r.Success? <==> KeysHashable(questions, idColumn)
    ensures r.Failure? ==> r.error == UnhashableKey
    ensures r.Success? ==> |r.value| == |questions|
    ensures r.Success? ==> forall i :: 0 <= i < |questions| ==>
      Lookup(byQuestion, Get(questions[i], idColumn)).Success?
      && r.value[i] == QuestionTree(questions[i], Lookup(byQuestion, Get(questions[i], idColumn)).value)
  {
    if |questions| == 0 then Success([])
    else
      assert forall i :: 1 <= i < |questions| ==> questions[i] == questions[1..][i - 1];
      var found :- Lookup(byQuestion, Get(questions[0], idColumn));
      var rest :- BuildTrees(questions[1..], byQuestion, idColumn);
      Success([QuestionTree(questions[0], found)] + rest)
  }

  /** Lines 40-51 of `get_questions_with_answers`: group the answers by their
      foreign key and pair every question with its group. */
  function AssembleQuestions(repo: FullQuestionRepository, questions: seq<Row>, answers: seq<Row>)
    : (r: Result<seq<QuestionTree>, Error>)
    ensures r.Success? <==>
      KeysHashable(answers, repo.answerFkColumn) && KeysHashable(questions, repo.questionIdColumn)
    ensures r.Failure? ==> r.error == UnhashableKey
    ensures r.Success? ==> |r.value| == |questions|
    ensures r.Success? ==> forall i :: 0 <= i < |questions| ==>
      r.value[i] == QuestionTree(questions[i], AnswersOf(repo, answers, questions[i]))
  {
    var byQuestion :- GroupBy(answers, repo.answerFkColumn);
    var trees :- BuildTrees(questions, byQuestion, repo.questionIdColumn);
    assert forall i :: 0 <= i < |questions| ==> trees[i].answers == AnswersOf(repo, answers, questions[i]) by {
      forall i | 0 <= i < |questions| {
        LookupIsMatching(answers, repo.answerFkColumn, Get(questions[i], repo.questionIdColumn));
      }
    }
    Success(trees)
  }

  /** `_fetch_questions`: the test id is a bound parameter. */
  function QuestionsQuery(repo: FullQuestionRepository, client: Client, testId: string): Query {
    Query(
      Questions,
      QueryText(client.tableRef(repo.dataset, repo.questionTable), [repo.testIdColumn], None),
      [StringParam("test_id", testId)])
  }

  /** `_fetch_answers`: the question ids are one bound array parameter. */
  function AnswersQuery(repo: FullQuestionRepository, client: Client, questionIds: seq<Value>): Query {
    Query(
      Answers,
      QueryText(client.tableRef(repo.dataset, repo.answerTable), [repo.answerFkColumn], None),
      [StringArrayParam("question_ids", questionIds)])
  }

  /** `get_questions_with_answers(test_id)`: the question fetch, the answer
      fetch only when some question carries an id, then assembly. */
  function QuestionsWithAnswers(repo: FullQuestionRepository, client: Client, testId: string)
    : (t: Traced<seq<QuestionTree>>)
    ensures 1 <= |t.issued| <= 2
    ensures t.issued[0] == QuestionsQuery(repo, client, testId)
    // no questions: the result is empty and no answer fetch is issued
    ensures client.run(t.issued[0]) == [] ==> t.result == Success([]) && |t.issued| == 1
    // the answer fetch is issued exactly when some question row carries the id column
    ensures var questions := client.run(t.issued[0]);
            |t.issued| == 2 <==> exists j :: 0 <= j < |questions| && repo.questionIdColumn in questions[j]
    ensures |t.issued| == 2 ==>
            t.issued[1] == AnswersQuery(repo, client, IdsOf(client.run(t.issued[0]), repo.questionIdColumn))
    ensures var questions := client.run(t.issued[0]);
            var answers := if |t.issued| == 2 then client.run(t.issued[1]) else [];
            t.result == AssembleQuestions(repo, questions, answers)
  {
    var q1 := QuestionsQuery(repo, client, testId);
    var questions := client.run(q1);
    if |questions| == 0 then
      Traced(Success([]), [q1])
    else
      var questionIds := IdsOf(questions, repo.questionIdColumn);
      if |questionIds| == 0 then
        Traced(AssembleQuestions(repo, questions, []), [q1])
      else
        var q2 := AnswersQuery(repo, client, questionIds);
        Traced(AssembleQuestions(repo, questions, client.run(q2)), [q1, q2])
  }

  /** The shape of every tree: its question is the fetched row unchanged, and
      its answers are the order-preserving subsequence of answer rows whose
      foreign key equals the question's id, empty when that id is missing or
      `None`. */
  lemma {:induction false} QuestionTreeShape(repo: FullQuestionRepository, questions: seq<Row>, answers: seq<Row>)
    requires AssembleQuestions(repo, questions, answers).Success?
    ensures var r := AssembleQuestions(repo, questions, answers).value;
            forall i :: 0 <= i < |questions| ==>
              && r[i].question == questions[i]
              && IsSubsequence(r[i].answers, answers)
              && (Get(questions[i], repo.questionIdColumn) == VNull ==> r[i].answers == [])
              && (forall x :: x in r[i].answers ==>
                    Get(x, repo.answerFkColumn) != VNull
                    && Canon(Get(x, repo.answerFkColumn)) == Canon(Get(questions[i], repo.questionIdColumn)))
  {
    forall i | 0 <= i < |questions| {
      MatchingIsGroup(answers, repo.answerFkColumn, Get(questions[i], repo.questionIdColumn));
    }
  }

  /** On a validated repository both queries format only checked identifiers
      into their text, and the test id is only ever a bound parameter. */
  lemma QuestionsQueryText(repo: FullQuestionRepository, client: Client, testId: string, otherTestId: string)
    requires repo.Valid()
    ensures var t := QuestionsWithAnswers(repo, client, testId);
            forall k :: 0 <= k < |t.issued| ==> InterpolatesSafely(t.issued[k])
    ensures QuestionsWithAnswers(repo, client, testId).issued[0].text
            == QuestionsWithAnswers(repo, client, otherTestId).issued[0].text
    ensures QuestionsWithAnswers(repo, client, testId).issued[0].params == [StringParam("test_id", testId)]
  {
    var checks := repo.ColumnChecks();
    assert IsSafeIdentifier(checks[0].identifier) && IsSafeIdentifier(checks[2].identifier);
  }
}
