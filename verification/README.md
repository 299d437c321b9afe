# Relational reconstruction layer of the data-gathering API, in Dafny

This project models the part of the data-gathering API that turns flat
warehouse rows into nested payloads, plus the offline script that prunes
exported test data along the same foreign keys.

- **Identifier allow-list** (`_ensure_safe_identifier`). Every configured
  column name must be non-empty and made only of ASCII letters, digits and
  `_` before it is formatted into SQL text. Otherwise construction raises
  `ValueError` naming the column's role.
- **Group-by index** (`_group_by`). A map from foreign-key value to the rows
  carrying it, in input order. Rows with a missing or `None` key are dropped.
  A list or dict key raises `TypeError`. Python's `True == 1` means a boolean
  and its integer share one key; `Rows.Canon` models this.
- **Exam repository** (`ExamRepository`). The constructor validates seven
  columns. `get_latest_attempts` clamps the limit to [1, 5] and runs up to
  three dependent fetches, each with its short-circuit. It attaches each
  question result's answers under `_answers`, groups the question results by
  exam result, and emits one attempt per exam-result row in fetch order.
- **Full-question repository** (`FullQuestionRepository`). The same pattern
  one level shallower: question → answers.
- **Course repository** (`CourseRepository`). The constructor validates six
  columns. `get_course` returns the first row of its single query, or `None`.
- **Export filter cascade** (`sample/export_test_data.py`). `_parse_ids`
  turns comma-separated command-line tokens into a set of ids.
  `export_filtered_data` then keeps exam results → exam question results →
  exam answer results / questions → answers, with a schema-dependent rule
  for the answer table.

Modelling choices:
- A row is a `map<string, Value>`. `Rows.Get` is `row.get(key)`.
- Errors the code raises become `Failure` values of `Wrappers.Result`:
  `Error.InvalidIdentifier(kind, identifier)` is the `ValueError`, and
  `Error.UnhashableKey` is the `TypeError`.
- The warehouse client is a parameter: `Queries.Client` has a `run` function
  from query to rows and a `tableRef` function.
- Every repository call returns a `Queries.Traced` value: the result plus the
  queries it issued, in order. The short-circuit and parameter-binding
  properties are stated over that query list.
- Nothing is assumed about which rows the warehouse returns.
- Each group and lookup has a reference definition, `Grouping.Matching`: the
  order-preserving filter of the rows whose key equals the value. The
  dictionary-based code is proved equal to it.

Files:
- `wrappers.dfy`: result types.
- `seqs.dfy`: filtering, subsequences and folds.
- `rows.dfy`: values and rows.
- `identifiers.dfy`: the allow-list.
- `grouping.dfy`: `_group_by` and lookups.
- `queries.dfy`: queries and the client.
- `exam_repo.dfy`, `full_question_repo.dfy`, `course_repo.dfy`: the three
  repositories.
- `text.dfy`: `str.split` and `str.strip`.
- `export_test_data.dfy`: the script.
- `scenarios.dfy`: two worked examples of the attempt assembler.

## Model

| member | source | states |
|---|---|---|
| Identifiers.HasDisallowedChar | functions/repositories/exam_repo.py:7-8 | true exactly when some character of the identifier lies outside the 63-character allow-list |
| Identifiers.EnsureSafeIdentifier | functions/repositories/exam_repo.py:6-10 | succeeds exactly for non-empty identifiers made only of letters, digits and `_`, returning the identifier unchanged; otherwise fails with an error naming the role and the identifier |
| Identifiers.CheckIdentifiers | functions/repositories/exam_repo.py:35-41 | passes exactly when every column in the list is safe; on failure the error is that of the first unsafe column, all earlier ones being safe |
| ExamRepo.NewExamRepository | functions/repositories/exam_repo.py:14-41 | construction succeeds exactly when all seven columns are safe; the result stores every argument unchanged, table names unvalidated; a failure reports the first invalid column in constructor order with its role |
| ExamRepo.ClampLimit | functions/repositories/exam_repo.py:47 | the limit lies in [1, 5], equals the requested limit inside that range, and is 1 below and 5 above it; so clamping a clamped limit changes nothing |
| ExamRepo.Enrich | functions/repositories/exam_repo.py:64-67 | the enriched row has `_answers` set to the given answers; every other column is present exactly when it was before, with the same value |
| ExamRepo.EnrichAll | functions/repositories/exam_repo.py:62-69 | succeeds exactly when no question id is a list or dict; one enriched row per question result, in order, carrying the lookup of its id |
| ExamRepo.EnrichAllIsReference | functions/repositories/exam_repo.py:59-69 | enrichment through the answer index equals attaching to each question result the answers whose foreign key equals its id |
| ExamRepo.BuildAttempts | functions/repositories/exam_repo.py:73-82 | succeeds exactly when no exam-result id is a list or dict; one attempt per exam result, in order, holding the row and the lookup of its id |
| ExamRepo.BuildAttemptsIsReference | functions/repositories/exam_repo.py:62-82 | attempt *i* built through the question index holds exam row *i* and exactly the enriched question results whose foreign key equals its id |
| ExamRepo.AssembleAttempts | functions/repositories/exam_repo.py:59-82 | succeeds exactly when every key and looked-up value is hashable, failing with the `TypeError` otherwise; no attempt is dropped; attempt *i* holds exam row *i* and its question results, each carrying its answers |
| ExamRepo.AttemptShape | functions/repositories/exam_repo.py:59-82 | an attempt's questions are an order-preserving subsequence of the enriched question results, all with a foreign key equal to the exam id, none when that id is missing or `None`; each question's `_answers` is the order-preserving subsequence of answers pointing at its id |
| ExamRepo.LatestAttempts | functions/repositories/exam_repo.py:43-82 | the exam-result query comes first with the clamped limit; no exam rows means result `[]` and no further query; the question query carries the ids of the rows that have the id column, even when there are none; the answer query is issued exactly when some question row has the id column; the result is the assembly of the fetched rows |
| ExamRepo.LatestAttemptsDependOnClampedLimit | functions/repositories/exam_repo.py:47-48 | the whole call, queries and result, depends on the limit only through its clamped value |
| ExamRepo.LatestAttemptsInterpolateSafely | functions/repositories/exam_repo.py:84-122 | on a validated repository every issued query formats only allow-listed column names into its text |
| ExamRepo.LatestAttemptsBindRequestValues | functions/repositories/exam_repo.py:84-98 | the student and test ids are the two bound parameters of the exam-result query, and its text is the same whatever their values |
| Grouping.MatchingSnoc | functions/repositories/exam_repo.py:127-131 | appending a row extends exactly the group of that row's key |
| Grouping.GroupBy | functions/repositories/exam_repo.py:124-132 | succeeds exactly when no key is a list or dict; every stored key is non-null and its group is the non-empty order-preserving list of rows with that key; every row with a non-null key has its key stored |
| Grouping.LookupIsMatching | functions/repositories/exam_repo.py:75-79 | `groups.get(k, [])` on the index yields exactly the rows whose key equals `k`, `[]` for `None` or an absent key, and fails only for a list or dict |
| Grouping.GroupByPlacement | functions/repositories/exam_repo.py:124-132 | a row with a missing or `None` key is in no group; any other input row is in the group of its own key as often as it occurs in the input, and in no other group |
| Grouping.GroupsPreserveOrder | functions/repositories/full_question_repo.py:78-86 | every group is an order-preserving subsequence of the input rows |
| Grouping.MatchingIsGroup | functions/repositories/exam_repo.py:127-131 | a group is a subsequence of the rows, every member has a non-null key equal to the group key, every such row keeps its multiplicity, and a `None` key has the empty group |
| Rows.IdsOf | functions/repositories/exam_repo.py:52-56 | the id list holds, in order, the values of exactly the rows that contain the column, `None` values included; it is empty exactly when no row contains the column |
| FullQuestionRepo.NewFullQuestionRepository | functions/repositories/full_question_repo.py:12-29 | construction succeeds exactly when the three columns are safe; arguments are stored unchanged, table names unvalidated; a failure reports the first invalid column with its role |
| FullQuestionRepo.BuildTrees | functions/repositories/full_question_repo.py:42-51 | succeeds exactly when no question id is a list or dict; one entry per question, in order, pairing the row with the lookup of its id |
| FullQuestionRepo.AssembleQuestions | functions/repositories/full_question_repo.py:40-51 | succeeds exactly when answer keys and question ids are hashable; entry *i* pairs question row *i* with the answers whose foreign key equals its id |
| FullQuestionRepo.QuestionTreeShape | functions/repositories/full_question_repo.py:40-51 | entry *i*'s question is row *i* unchanged, and its answers are an order-preserving subsequence of the answer rows pointing at that id, empty when the id is missing or `None` |
| FullQuestionRepo.QuestionsWithAnswers | functions/repositories/full_question_repo.py:31-51 | the question query comes first; no questions means result `[]` and no answer query; the answer query is issued exactly when some question row has the id column and carries those ids in order; the result is the assembly of the fetched rows |
| FullQuestionRepo.QuestionsQueryText | functions/repositories/full_question_repo.py:53-76 | on a validated repository both queries format only allow-listed column names, and the test id is only the bound parameter |
| CourseRepo.NewCourseRepository | functions/repositories/course_repo.py:12-35 | construction succeeds exactly when all six columns are safe; arguments are stored unchanged, the table name unvalidated; a failure reports the first invalid column with its role |
| CourseRepo.GetCourse | functions/repositories/course_repo.py:37-57 | exactly one query is issued; the result is `None` exactly when it returns no rows, and otherwise its first row unchanged |
| CourseRepo.CourseQueryText | functions/repositories/course_repo.py:37-54 | on a validated repository the query formats only allow-listed columns and `LIMIT 1`; the course id is the only bound parameter and never changes the text |
| Text.Split | sample/export_test_data.py:44 | splitting yields at least one piece and no piece contains the separator |
| Text.JoinSplit | sample/export_test_data.py:44 | joining the pieces with the separator gives back the token |
| Text.SplitJoin | sample/export_test_data.py:44 | splitting a join of separator-free pieces gives back the pieces |
| Text.StripStart | sample/export_test_data.py:44 | the result is a suffix of the input, everything removed is whitespace, and it does not start with whitespace |
| Text.StripEnd | sample/export_test_data.py:44 | the result is a prefix of the input, everything removed is whitespace, and it does not end with whitespace |
| Text.Strip | sample/export_test_data.py:44 | the result is a slice of the input with only whitespace around it, and a non-empty result neither starts nor ends with whitespace |
| Text.StripKeepsAbsence | sample/export_test_data.py:44 | a character absent from a piece is absent from the stripped piece |
| Seqs.UnionOverMembership | sample/export_test_data.py:42-46 | a value is in the token-by-token accumulated set exactly when some token contributes it |
| ExportTestData.TokenIdsMembership | sample/export_test_data.py:44-45 | a token contributes exactly the non-empty stripped pieces of its comma split |
| ExportTestData.ParseIdsMembership | sample/export_test_data.py:41-46 | an id is parsed exactly when some token contributes it |
| ExportTestData.TokenIdIsClean | sample/export_test_data.py:44-45 | every id a token contributes is non-empty, has no comma, and neither starts nor ends with whitespace |
| ExportTestData.ParsedIdsAreClean | sample/export_test_data.py:41-46 | every parsed id is non-empty, has no comma, and neither starts nor ends with whitespace |
| ExportTestData.PresentValues | sample/export_test_data.py:57 | the matched-id set holds exactly the truthy values of the column over the kept rows |
| ExportTestData.Requested | sample/export_test_data.py:56 | a cell value is requested exactly when it is a string in the parsed id set |
| ExportTestData.KeepWhere | sample/export_test_data.py:59-61 | the kept rows are exactly the rows whose column value is allowed, each as often as in the input, as an order-preserving subsequence |
| ExportTestData.ExportFiltered | sample/export_test_data.py:56-113 | exam results are kept exactly when their id was requested; each later table keeps exactly the rows whose foreign key is a non-empty id of the kept rows above it; answers follow the three-way schema rule; the counts are the five lengths |
| ExportTestData.ExportExamResultsExact | sample/export_test_data.py:56 | every exam-result row whose id was requested is kept as often as it occurs in the input, and no other row is kept |
| ExportTestData.ExportExamQuestionsExact | sample/export_test_data.py:57-61 | every exam-question row whose `exam_result_id` is a non-empty id of a kept exam result is kept as often as it occurs, and no other row is kept |
| ExportTestData.ExportExamAnswersExact | sample/export_test_data.py:62-67 | every exam-answer row whose `exam_result_question_id` is a non-empty id of a kept exam-question row is kept as often as it occurs, and no other row is kept |
| ExportTestData.ExportQuestionsExact | sample/export_test_data.py:63-70 | every question row whose `id` is a non-empty `question_id` of a kept exam-question row is kept as often as it occurs, and no other row is kept |
| ExportTestData.ExportAnswersExact | sample/export_test_data.py:68-91 | every answer row the schema-dependent rule accepts is kept as often as it occurs, and no other row is kept |
| ExportTestData.ExportCountsDuplicates | sample/export_test_data.py:56-108 | a requested exam result that appears twice is exported twice, and its count is 2 |
| ExportTestData.ExportPreservesOrder | sample/export_test_data.py:56-91 | every exported table is an order-preserving subsequence of its input and holds no row more often than the input |
| Scenarios.EndToEndAnswers | functions/repositories/exam_repo.py:59-61 | an answer pointing at question q1 forms q1's answer group |
| Scenarios.EndToEndEnriched | functions/repositories/exam_repo.py:62-69 | question q1 carries its one answer under `_answers` |
| Scenarios.EndToEndExample | functions/repositories/exam_repo.py:59-82 | exam result r1, its question result q1 and q1's answer a1 nest into exactly one attempt |
| Scenarios.OrderEnriched | functions/repositories/exam_repo.py:62-69 | with no answer results every question result carries an empty `_answers` list |
| Scenarios.OrderGroups | functions/repositories/exam_repo.py:124-132 | question results of B then A are grouped each under its own exam result |
| Scenarios.AttemptOrderExample | functions/repositories/exam_repo.py:73-82 | attempts follow exam-result order, not the order the question results arrive in |

## Left out

- The warehouse itself is not modelled: query execution, the network, and whether `WHERE … IN UNNEST(…)`, `ORDER BY … DESC` and `LIMIT` are honoured. The client is a parameter, and every property holds whatever rows it returns. functions/bigquery_client.py and functions/bigquery_loader.py are not part of this model.
- SQL text is abstracted to what it interpolates: the table reference, the column identifiers in order, and the LIMIT integer. The query's syntax is not modelled.
- The client handle is passed to each operation rather than stored in the repository.
- ExamRepo.LatestAttempts takes the limit as an explicit argument. The default `limit = 2` of `get_latest_attempts` is not modelled; its caller in api.py passes the limit explicitly.
- The debug `print` in `_fetch_questions` (functions/repositories/full_question_repo.py:55) is left out because it is output only.
- The identifier check raises `ValueError`, not a dedicated configuration error; the model follows the code.
- The allow-list is stated as the character ranges `a`-`z`, `A`-`Z`, `0`-`9` plus `_`, which is the same 63-character set as the literal.
- Values are limited to `None`, booleans, integers, strings, lists and dicts. Float and NUMERIC keys from the warehouse are not modelled. In Python a float `NaN` never equals itself, so each `NaN` key starts its own group and no lookup finds it. Also, `1.0`, `Decimal(1)`, `1` and `True` all share one key. Timestamps and bytes are not represented either.
- `Rows.Canon` identifies `True`/`False` with `1`/`0` only, since there are no float or decimal values.
- CSV reading and writing, directory creation, `argparse`, printing and `main` in sample/export_test_data.py are left out. So are the built-in id list and the exit on an empty id set. The five input tables and the output tables are sequences of rows.
- The output CSV header taken from the first input row (`rows[0].keys()`) is left out. It raises `IndexError` for an empty input file, which the model does not represent.
- `csv.DictReader`'s extra-field list for long lines (the `None` key holding a list) is not represented. `ExportTestData.CsvRow` allows only string or `None` cells under string keys.
- Python strings are sequences of code points here. `Text.IsWhitespace` lists the characters `str.strip()` removes; no normalisation or encoding is modelled.
- api.py is not part of this model: HTTP routing, caching, status codes and key conversion. Its wiring of the full-question repository passes two keywords the constructor does not declare: `question_result_id_column=`, where the parameter is `question_id_column`, and `answer_result_fk_column=`, where the parameter is `answer_fk_column`. That wiring lies outside the modelled constructor.
- functions/config.py (YAML and environment configuration) is not part of this model.
