/** Two worked examples of the attempt assembler: nesting one chain of rows, and attempt order. */
module Scenarios {
  import opened Wrappers
  import opened Seqs
  import opened Rows
  import opened Grouping
  import opened ExamRepo

  /** The answer group of question "q1" is the one answer pointing at it. */
  lemma EndToEndAnswers(a: Row)
    requires a == map["id" := VStr("a1"), "exam_result_question_id" := VStr("q1")]
    ensures Matching([a], "exam_result_question_id", VStr("q1")) == [a]
  {
  }

  /** The single question result carries that answer under `_answers`. */
  lemma EndToEndEnriched(repo: ExamRepository, q: Row, a: Row)
    requires repo.questionResultIdColumn == "id"
    requires repo.answerResultFkColumn == "exam_result_question_id"
    requires q == map["id" := VStr("q1"), "exam_result_id" := VStr("r1")]
    requires a == map["id" := VStr("a1"), "exam_result_question_id" := VStr("q1")]
    ensures EnrichedQuestions(repo, [q], [a]) == [q[AnswersField := RowsValue([a])]]
  {
    assert Get(q, "id") == VStr("q1");
    EndToEndAnswers(a);
  }

  /** Exam result r1, question result q1 of r1 and answer result a1 of q1
      nest into exactly one attempt holding all three. */
  lemma EndToEndExample(repo: ExamRepository, e: Row, q: Row, a: Row)
    requires repo.examResultIdColumn == "id" && repo.questionResultIdColumn == "id"
    requires repo.questionResultFkColumn == "exam_result_id"
    requires repo.answerResultFkColumn == "exam_result_question_id"
    requires e == map["id" := VStr("r1"), "student" := VStr("s1"), "test" := VStr("t1")]
    requires q == map["id" := VStr("q1"), "exam_result_id" := VStr("r1")]
    requires a == map["id" := VStr("a1"), "exam_result_question_id" := VStr("q1")]
    ensures AssembleAttempts(repo, [e], [q], [a]) == Success([Attempt(e, [q[AnswersField := RowsValue([a])]])])
  {
    EndToEndEnriched(repo, q, a);
    var enriched := [q[AnswersField := RowsValue([a])]];
    assert Get(enriched[0], "exam_result_id") == VStr("r1");
    assert Get(e, "id") == VStr("r1");
    assert Matching(enriched, "exam_result_id", VStr("r1")) == enriched;
    assert AssemblyHashable(repo, [e], [q], [a]);
    var r := AssembleAttempts(repo, [e], [q], [a]);
    assert r.value == [r.value[0]];
  }

  /** With no answer results, each question result gets an empty `_answers` list. */
  lemma OrderEnriched(repo: ExamRepository, q1: Row, q2: Row)
    ensures EnrichedQuestions(repo, [q1, q2], [])
            == [q1[AnswersField := RowsValue([])], q2[AnswersField := RowsValue([])]]
  {
  }

  /** The question result of A is grouped under A and that of B under B. */
  lemma OrderGroups(enriched: seq<Row>)
    requires |enriched| == 2
    requires Get(enriched[0], "exam_result_id") == VStr("B")
    requires Get(enriched[1], "exam_result_id") == VStr("A")
    ensures Matching(enriched, "exam_result_id", VStr("A")) == [enriched[1]]
    ensures Matching(enriched, "exam_result_id", VStr("B")) == [enriched[0]]
  {
    assert enriched[1..] == [enriched[1]];
    var pa := KeyMatches("exam_result_id", VStr("A"));
    assert !pa(enriched[0]) && pa(enriched[1]);
    assert Filter([enriched[1]], pa) == [enriched[1]];
    var pb := KeyMatches("exam_result_id", VStr("B"));
    assert pb(enriched[0]) && !pb(enriched[1]);
    assert Filter([enriched[1]], pb) == [];
  }

  /** Attempts follow the order of the exam results, not the order in which
      their question results arrive: exam results [A, B] with question results
      [q1 of B, q2 of A] give [(A, [q2]), (B, [q1])]. */
  lemma AttemptOrderExample(repo: ExamRepository, e1: Row, e2: Row, q1: Row, q2: Row)
    requires repo.examResultIdColumn == "id" && repo.questionResultIdColumn == "id"
    requires repo.questionResultFkColumn == "exam_result_id"
    requires e1 == map["id" := VStr("A")] && e2 == map["id" := VStr("B")]
    requires q1 == map["id" := VStr("q1"), "exam_result_id" := VStr("B")]
    requires q2 == map["id" := VStr("q2"), "exam_result_id" := VStr("A")]
    ensures AssembleAttempts(repo, [e1, e2], [q1, q2], []) == Success([
      Attempt(e1, [q2[AnswersField := RowsValue([])]]),
      Attempt(e2, [q1[AnswersField := RowsValue([])]])])
  {
    var enriched := [q1[AnswersField := RowsValue([])], q2[AnswersField := RowsValue([])]];
    OrderEnriched(repo, q1, q2);
    assert Get(enriched[0], "exam_result_id") == VStr("B");
    assert Get(enriched[1], "exam_result_id") == VStr("A");
    OrderGroups(enriched);
    assert Get(e1, "id") == VStr("A") && Get(e2, "id") == VStr("B");
    assert AssemblyHashable(repo, [e1, e2], [q1, q2], []);
    var r := AssembleAttempts(repo, [e1, e2], [q1, q2], []);
    assert r.value == [r.value[0], r.value[1]];
  }
}
