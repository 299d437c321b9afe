/** The offline export script (sample/export_test_data.py): parses the
    requested exam-result ids and prunes five CSV tables down to the rows
    reachable from them along exam_result -> exam_question_result ->
    exam_answer_result / question -> answer. */
module ExportTestData {
  import opened Seqs
  import opened Rows
  import opened Text

  /** A row as `csv.DictReader` yields it: every cell is a string, or `None`
      when the line has fewer fields than the header. */
  type CsvRow = r: Row | forall k :: k in r ==> r[k].VStr? || r[k].VNull? witness map[]

  /** `[p.strip() for p in token.split(",")]`. */
  function Pieces(token: string): seq<string> {
    var parts := Split(token, ',');
    seq(|parts|, i requires 0 <= i < |parts| => Strip(parts[i]))
  }

  /** The pieces of one command-line token that `_parse_ids` keeps: the
      non-empty ones. */
  function TokenIds(token: string): set<string> {
    set x | x in Pieces(token) && x != ""
  }

  /** `x` is the stripped form of one of the comma-separated pieces of `token`. */
  predicate IsPieceOf(x: string, token: string) {
    var parts := Split(token, ',');
    exists i :: 0 <= i < |parts| && Strip(parts[i]) == x
  }

  /** A token contributes exactly its non-empty stripped comma-separated pieces. */
  lemma TokenIdsMembership(token: string, x: string)
    ensures x in TokenIds(token) <==> x != "" && IsPieceOf(x, token)
  {
    var parts := Split(token, ',');
    var pieces := Pieces(token);
    assert |pieces| == |parts|;
    assert forall i :: 0 <= i < |parts| ==> pieces[i] == Strip(parts[i]);
    assert x in TokenIds(token) <==> x in pieces && x != "";
    if x in pieces {
      var i :| 0 <= i < |pieces| && pieces[i] == x;
      assert Strip(parts[i]) == x;
      assert exists j :: 0 <= j < |parts| && Strip(parts[j]) == x;
    }
    if x != "" && exists i :: 0 <= i < |parts| && Strip(parts[i]) == x {
      var i :| 0 <= i < |parts| && Strip(parts[i]) == x;
      assert pieces[i] == x;
      assert x in pieces;
    }
  }

  /** `_parse_ids(raw_ids)`: the union, token by token, of the kept pieces. */
  function ParseIds(tokens: seq<string>): set<string> {
    UnionOver(tokens, TokenIds)
  }

  /** An id is parsed exactly when some token contributes it. */
  lemma ParseIdsMembership(tokens: seq<string>, x: string)
    ensures x in ParseIds(tokens) <==> exists j :: 0 <= j < |tokens| && x in TokenIds(tokens[j])
  {
    UnionOverMembership(tokens, TokenIds, x);
  }

  /** Every kept piece is non-empty, holds no comma and neither starts nor
      ends with whitespace. */
  lemma TokenIdIsClean(token: string, x: string)
    requires x in TokenIds(token)
    ensures x != "" && ',' !in x
    ensures !IsWhitespace(x[0]) && !IsWhitespace(x[|x| - 1])
  {
    TokenIdsMembership(token, x);
    var parts := Split(token, ',');
    var i :| 0 <= i < |parts| && Strip(parts[i]) == x;
    StripKeepsAbsence(parts[i], ',');
  }

  /** Every parsed id is non-empty, holds no comma and neither starts nor ends
      with whitespace. */
  lemma ParsedIdsAreClean(tokens: seq<string>, x: string)
    requires x in ParseIds(tokens)
    ensures x != "" && ',' !in x
    ensures !IsWhitespace(x[0]) && !IsWhitespace(x[|x| - 1])
  {
    ParseIdsMembership(tokens, x);
    var j :| 0 <= j < |tokens| && x in TokenIds(tokens[j]);
    TokenIdIsClean(tokens[j], x);
  }

  /** The five tables the script reads, or writes. */
  datatype Tables = Tables(
    examResults: seq<CsvRow>,
    examQuestionResults: seq<CsvRow>,
    examAnswerResults: seq<CsvRow>,
    questions: seq<CsvRow>,
    answers: seq<CsvRow>)

  /** The row counts `export_filtered_data` returns. */
  datatype Counts = Counts(
    examResult: nat,
    examQuestionResult: nat,
    examAnswerResult: nat,
    question: nat,
    answer: nat)

  datatype Export = Export(filtered: Tables, counts: Counts)

  /** `{r[col] for r in rows if r.get(col)}`: the non-empty values of a column. */
  function PresentValues(rows: seq<CsvRow>, col: string): (vs: set<Value>)
    ensures forall v :: v in vs <==> Truthy(v) && exists x :: x in rows && Get(x, col) == v
  {
    var vs := set i | 0 <= i < |rows| && Truthy(Get(rows[i], col)) :: Get(rows[i], col);
    assert forall x :: x in rows ==> exists i :: 0 <= i < |rows| && rows[i] == x;
    vs
  }

  /** The requested ids as the cell values they must equal. */
  function Requested(ids: set<string>): (vs: set<Value>)
    ensures forall v :: v in vs <==> v.VStr? && v.s in ids
  {
    set s | s in ids :: VStr(s)
  }

  function ColumnIn(col: string, allowed: set<Value>): CsvRow -> bool {
    (r: CsvRow) => Get(r, col) in allowed
  }

  /** `[r for r in rows if r.get(col) in allowed]`: exactly the rows whose
      column value is allowed, with their multiplicity, in input order. */
  function KeepWhere(rows: seq<CsvRow>, col: string, allowed: set<Value>): (kept: seq<CsvRow>)
    ensures forall x :: x in kept <==> x in rows && Get(x, col) in allowed
    ensures IsSubsequence(kept, rows)
    ensures forall x :: multiset(kept)[x] == if Get(x, col) in allowed then multiset(rows)[x] else 0
  {
    var kept := Filter(rows, ColumnIn(col, allowed));
    FilterIsSubsequence(rows, ColumnIn(col, allowed));
    assert forall x :: x in kept <==> x in rows && Get(x, col) in allowed by {
      forall x { FilterMembership(rows, ColumnIn(col, allowed), x); }
    }
    assert forall x :: multiset(kept)[x] == if Get(x, col) in allowed then multiset(rows)[x] else 0 by {
      forall x { FilterMultiplicity(rows, ColumnIn(col, allowed), x); }
    }
    kept
  }

  /** Some row of the table has the column at all (schema detection). */
  predicate AnyHasColumn(rows: seq<CsvRow>, col: string) {
    exists i :: 0 <= i < |rows| && col in rows[i]
  }

  /** The rule for the answer table, by detected schema: when answer rows
      carry `question_id`, keep those of a matched question or with a known
      answer id; else, when the kept questions carry `answer_id`, keep rows
      with a known answer id; otherwise keep rows whose id some kept exam
      answer points to. */
  predicate KeepAnswer(
    r: CsvRow, byQuestionSchema: bool, byAnswerIdSchema: bool,
    questionIds: set<Value>, answerIdsUnion: set<Value>, examAnswerIds: set<Value>)
  {
    if byQuestionSchema then Get(r, "question_id") in questionIds || Get(r, "id") in answerIdsUnion
    else if byAnswerIdSchema then Get(r, "id") in answerIdsUnion
    else Get(r, "id") in examAnswerIds
  }

  function AnswerRule(
    byQuestionSchema: bool, byAnswerIdSchema: bool,
    questionIds: set<Value>, answerIdsUnion: set<Value>, examAnswerIds: set<Value>): CsvRow -> bool
  {
    (r: CsvRow) => KeepAnswer(r, byQuestionSchema, byAnswerIdSchema, questionIds, answerIdsUnion, examAnswerIds)
  }

  /** The pure body of `export_filtered_data(data_dir, output_dir, ids)`: the
      five pruned tables and their row counts. */
  function ExportFiltered(t: Tables, ids: set<string>): (e: Export)
    ensures forall r :: r in e.filtered.examResults <==>
      r in t.examResults && Get(r, "id") in Requested(ids)
    ensures forall r :: r in e.filtered.examQuestionResults <==>
      r in t.examQuestionResults && Get(r, "exam_result_id") in PresentValues(e.filtered.examResults, "id")
    ensures forall r :: r in e.filtered.examAnswerResults <==>
      r in t.examAnswerResults
      && Get(r, "exam_result_question_id") in PresentValues(e.filtered.examQuestionResults, "id")
    ensures forall r :: r in e.filtered.questions <==>
      r in t.questions && Get(r, "id") in PresentValues(e.filtered.examQuestionResults, "question_id")
    ensures forall r :: r in e.filtered.answers <==>
      r in t.answers
      && KeepAnswer(r,
           AnyHasColumn(t.answers, "question_id"),
           AnyHasColumn(e.filtered.questions, "answer_id"),
           PresentValues(e.filtered.examQuestionResults, "question_id"),
           PresentValues(e.filtered.examAnswerResults, "answer_id") + PresentValues(e.filtered.questions, "answer_id"),
           PresentValues(e.filtered.examAnswerResults, "answer_id"))
    ensures e.counts == Counts(
      |e.filtered.examResults|, |e.filtered.examQuestionResults|, |e.filtered.examAnswerResults|,
      |e.filtered.questions|, |e.filtered.answers|)
  {
    var examResults := KeepWhere(t.examResults, "id", Requested(ids));
    var examResultIds := PresentValues(examResults, "id");
    var examQuestions := KeepWhere(t.examQuestionResults, "exam_result_id", examResultIds);
    var examQuestionIds := PresentValues(examQuestions, "id");
    var questionIds := PresentValues(examQuestions, "question_id");
    var examAnswers := KeepWhere(t.examAnswerResults, "exam_result_question_id", examQuestionIds);
    var examAnswerIds := PresentValues(examAnswers, "answer_id");
    var questions := KeepWhere(t.questions, "id", questionIds);
    var questionAnswerIds := PresentValues(questions, "answer_id");
    var byQuestionSchema := AnyHasColumn(t.answers, "question_id");
    var byAnswerIdSchema := AnyHasColumn(questions, "answer_id");
    var union := examAnswerIds + questionAnswerIds;
    var rule := AnswerRule(byQuestionSchema, byAnswerIdSchema, questionIds, union, examAnswerIds);
    var answers := Filter(t.answers, rule);
    assert forall r :: r in answers <==> r in t.answers && rule(r) by {
      forall r { FilterMembership(t.answers, rule, r); }
    }
    Export(
      Tables(examResults, examQuestions, examAnswers, questions, answers),
      Counts(|examResults|, |examQuestions|, |examAnswers|, |questions|, |answers|))
  }

  /** Every exported table is an order-preserving subsequence of the table it
      was read from: no row is added, duplicated or reordered. */
  lemma ExportPreservesOrder(t: Tables, ids: set<string>)
    ensures var f := ExportFiltered(t, ids).filtered;
            && IsSubsequence(f.examResults, t.examResults)
            && IsSubsequence(f.examQuestionResults, t.examQuestionResults)
            && IsSubsequence(f.examAnswerResults, t.examAnswerResults)
            && IsSubsequence(f.questions, t.questions)
            && IsSubsequence(f.answers, t.answers)
    ensures var f := ExportFiltered(t, ids).filtered;
            && multiset(f.examResults) <= multiset(t.examResults)
            && multiset(f.examQuestionResults) <= multiset(t.examQuestionResults)
            && multiset(f.examAnswerResults) <= multiset(t.examAnswerResults)
            && multiset(f.questions) <= multiset(t.questions)
            && multiset(f.answers) <= multiset(t.answers)
  {
    var f := ExportFiltered(t, ids).filtered;
    var examAnswerIds := PresentValues(f.examAnswerResults, "answer_id");
    FilterIsSubsequence(t.answers, AnswerRule(
      AnyHasColumn(t.answers, "question_id"),
      AnyHasColumn(f.questions, "answer_id"),
      PresentValues(f.examQuestionResults, "question_id"),
      examAnswerIds + PresentValues(f.questions, "answer_id"),
      examAnswerIds));
    SubsequenceMultiset(f.examResults, t.examResults);
    SubsequenceMultiset(f.examQuestionResults, t.examQuestionResults);
    SubsequenceMultiset(f.examAnswerResults, t.examAnswerResults);
    SubsequenceMultiset(f.questions, t.questions);
    SubsequenceMultiset(f.answers, t.answers);
  }

  // Exactly which rows each table keeps, counted with multiplicity, so the
  // exported tables and the row counts are fully determined by the input.

  /** Every exam result whose id was requested is kept as often as it occurs; no other is. */
  lemma ExportExamResultsExact(t: Tables, ids: set<string>)
    ensures var f := ExportFiltered(t, ids).filtered;
            forall x :: multiset(f.examResults)[x]
              == if Get(x, "id") in Requested(ids) then multiset(t.examResults)[x] else 0
  {
    assert ExportFiltered(t, ids).filtered.examResults == KeepWhere(t.examResults, "id", Requested(ids));
  }

  /** Every exam question result pointing at a kept exam result is kept as often as it occurs. */
  lemma ExportExamQuestionsExact(t: Tables, ids: set<string>)
    ensures var f := ExportFiltered(t, ids).filtered;
            forall x :: multiset(f.examQuestionResults)[x]
              == if Get(x, "exam_result_id") in PresentValues(f.examResults, "id")
                 then multiset(t.examQuestionResults)[x] else 0
  {
    var f := ExportFiltered(t, ids).filtered;
    assert f.examQuestionResults
      == KeepWhere(t.examQuestionResults, "exam_result_id", PresentValues(f.examResults, "id"));
  }

  /** Every exam answer result pointing at a kept exam question result is kept as often as it occurs. */
  lemma ExportExamAnswersExact(t: Tables, ids: set<string>)
    ensures var f := ExportFiltered(t, ids).filtered;
            forall x :: multiset(f.examAnswerResults)[x]
              == if Get(x, "exam_result_question_id") in PresentValues(f.examQuestionResults, "id")
                 then multiset(t.examAnswerResults)[x] else 0
  {
    var f := ExportFiltered(t, ids).filtered;
    assert f.examAnswerResults
      == KeepWhere(t.examAnswerResults, "exam_result_question_id", PresentValues(f.examQuestionResults, "id"));
  }

  /** Every question referenced by a kept exam question result is kept as often as it occurs. */
  lemma ExportQuestionsExact(t: Tables, ids: set<string>)
    ensures var f := ExportFiltered(t, ids).filtered;
            forall x :: multiset(f.questions)[x]
              == if Get(x, "id") in PresentValues(f.examQuestionResults, "question_id")
                 then multiset(t.questions)[x] else 0
  {
    var f := ExportFiltered(t, ids).filtered;
    assert f.questions == KeepWhere(t.questions, "id", PresentValues(f.examQuestionResults, "question_id"));
  }

  /** Every answer the schema rule keeps is kept as often as it occurs. */
  lemma ExportAnswersExact(t: Tables, ids: set<string>)
    ensures var f := ExportFiltered(t, ids).filtered;
            var examAnswerIds := PresentValues(f.examAnswerResults, "answer_id");
            forall x :: multiset(f.answers)[x]
              == if KeepAnswer(x,
                      AnyHasColumn(t.answers, "question_id"),
                      AnyHasColumn(f.questions, "answer_id"),
                      PresentValues(f.examQuestionResults, "question_id"),
                      examAnswerIds + PresentValues(f.questions, "answer_id"),
                      examAnswerIds)
                 then multiset(t.answers)[x] else 0
  {
    var f := ExportFiltered(t, ids).filtered;
    var examAnswerIds := PresentValues(f.examAnswerResults, "answer_id");
    var rule := AnswerRule(
      AnyHasColumn(t.answers, "question_id"),
      AnyHasColumn(f.questions, "answer_id"),
      PresentValues(f.examQuestionResults, "question_id"),
      examAnswerIds + PresentValues(f.questions, "answer_id"),
      examAnswerIds);
    assert f.answers == Filter(t.answers, rule);
    forall x ensures multiset(f.answers)[x] == if rule(x) then multiset(t.answers)[x] else 0 {
      FilterMultiplicity(t.answers, rule, x);
    }
  }

  /** The row counts are determined by the input: the two-row example with a
      duplicated requested exam result reports 2, not 1. */
  lemma ExportCountsDuplicates(r: CsvRow)
    requires r == map["id" := VStr("x")]
    ensures ExportFiltered(Tables([r, r], [], [], [], []), {"x"}).counts.examResult == 2
  {
    var t := Tables([r, r], [], [], [], []);
    ExportExamResultsExact(t, {"x"});
    var f := ExportFiltered(t, {"x"}).filtered;
    assert Get(r, "id") in Requested({"x"});
    assert multiset(f.examResults) == multiset{r, r};
  }
}
