/** The boundary to the warehouse client (functions/bigquery_client.py is not
    part of this model): what a repository hands to `run_query`, and the client
    itself as a pair of functions. */
module Queries {
  import opened Wrappers
  import opened Rows
  import opened Identifiers

  /** Which of the repositories' query templates a query instantiates. */
  datatype QueryKind = ExamResults | QuestionResults | AnswerResults | Questions | Answers | Course

  /** A bound query parameter; parameter values never become query text. */
  datatype Param =
    | StringParam(name: string, value: string)
    | StringArrayParam(name: string, values: seq<Value>)

  /** Everything a template formats directly into the SQL text: the quoted
      table reference, the column identifiers in order of appearance, and the
      integer of a `LIMIT` clause, if the template has one. */
  datatype QueryText = QueryText(table: string, identifiers: seq<string>, limit: Option<int>)

  datatype Query = Query(kind: QueryKind, text: QueryText, params: seq<Param>)

  /** Every identifier formatted into the text passed the allow-list check. */
  predicate InterpolatesSafely(q: Query) {
    forall i :: 0 <= i < |q.text.identifiers| ==> IsSafeIdentifier(q.text.identifiers[i])
  }

  /** The warehouse client: `run_query` returns the rows of a query in the
      order the warehouse produced them, and `table_ref(dataset, table)`
      quotes a table name. Nothing is assumed about which rows come back. */
  datatype Client = Client(run: Query -> seq<Row>, tableRef: (string, string) -> string)

  /** The outcome of a repository call together with the queries it issued, in order. */
  datatype Traced<T> = Traced(result: Result<T, Error>, issued: seq<Query>)
}
