/** `CourseRepository` (functions/repositories/course_repo.py): a single-row
    course lookup by primary key. */
module CourseRepo {
  import opened Wrappers
  import opened Rows
  import opened Identifiers
  import opened Queries

  /** The repository's configuration; the client is passed to each operation. */
  datatype CourseRepository = CourseRepository(
    dataset: string,
    courseTable: string,
    idColumn: string,
    titleColumn: string,
    createdAtColumn: string,
    shortDescColumn: string,
    descColumn: string,
    linkColumn: string)
  {
    /** The six column names, in the order the constructor checks them. */
    function ColumnChecks(): seq<ColumnCheck> {
      [ ColumnCheck(idColumn, "course id column"),
        ColumnCheck(titleColumn, "course title column"),
        ColumnCheck(createdAtColumn, "course created column"),
        ColumnCheck(shortDescColumn, "course short description column"),
        ColumnCheck(descColumn, "course description column"),
        ColumnCheck(linkColumn, "course link column") ]
    }

    predicate Valid() {
      forall i :: 0 <= i < |ColumnChecks()| ==> IsSafeIdentifier(ColumnChecks()[i].identifier)
    }
  }

  /** `CourseRepository.__init__`: validates the six column names in order; the
      dataset and the course table name are stored as given, without validation. */
  function NewCourseRepository(
    dataset: string,
    courseTable: string,
    idColumn: string,
    titleColumn: string,
    createdAtColumn: string,
    shortDescColumn: string,
    descColumn: string,
    linkColumn: string): (r: Result<CourseRepository, Error>)
    ensures r.Success? <==>
      && IsSafeIdentifier(idColumn)
      && IsSafeIdentifier(titleColumn)
      && IsSafeIdentifier(createdAtColumn)
      && IsSafeIdentifier(shortDescColumn)
      && IsSafeIdentifier(descColumn)
      && IsSafeIdentifier(linkColumn)
    ensures r.Success? ==> r.value.Valid()
    ensures r.Success? ==> r.value == CourseRepository(
      dataset, courseTable, idColumn, titleColumn, createdAtColumn, shortDescColumn, descColumn, linkColumn)
    ensures r.Failure? ==> FirstInvalid([
      ColumnCheck(idColumn, "course id column"),
      ColumnCheck(titleColumn, "course title column"),
      ColumnCheck(createdAtColumn, "course created column"),
      ColumnCheck(shortDescColumn, "course short description column"),
      ColumnCheck(descColumn, "course description column"),
      ColumnCheck(linkColumn, "course link column")], r.error)
  {
    var repo := CourseRepository(
      dataset, courseTable, idColumn, titleColumn, createdAtColumn, shortDescColumn, descColumn, linkColumn);
    var checks := repo.ColumnChecks();
    match CheckIdentifiers(checks)
    case Fail(e) => Failure(e)
    case Pass =>
      assert IsSafeIdentifier(checks[0].identifier) && IsSafeIdentifier(checks[1].identifier)
        && IsSafeIdentifier(checks[2].identifier) && IsSafeIdentifier(checks[3].identifier)
        && IsSafeIdentifier(checks[4].identifier) && IsSafeIdentifier(checks[5].identifier);
      Success(repo)
  }

  /** The query of `get_course`: the six columns in the select list, the id
      column again in the `WHERE` clause, a literal `LIMIT 1`, and the course
      id as the only bound parameter. */
  function CourseQuery(repo: CourseRepository, client: Client, courseId: string): Query {
    Query(
      Course,
      QueryText(
        client.tableRef(repo.dataset, repo.courseTable),
        [repo.idColumn, repo.titleColumn, repo.createdAtColumn, repo.shortDescColumn,
         repo.descColumn, repo.linkColumn, repo.idColumn],
        Some(1)),
      [StringParam("course_id", courseId)])
  }

  /** `get_course(course_id)`: one query; `None` when it returns no rows,
      otherwise its first row unchanged. */
  function GetCourse(repo: CourseRepository, client: Client, courseId: string): (t: Traced<Option<Row>>)
    ensures t.issued == [CourseQuery(repo, client, courseId)]
    ensures t.result.Success?
    ensures t.result.value == None <==> client.run(t.issued[0]) == []
    ensures t.result.value.Some? ==> t.result.value.value == client.run(t.issued[0])[0]
  {
    var q := CourseQuery(repo, client, courseId);
    var rows := client.run(q);
    if |rows| == 0 then Traced(Success(None), [q])
    else Traced(Success(Some(rows[0])), [q])
  }

  /** On a validated repository the course query formats only checked column
      identifiers, the table reference and the literal 1 into its text; the
      course id never reaches the text and is bound as the only parameter. */
  lemma CourseQueryText(repo: CourseRepository, client: Client, courseId: string, otherCourseId: string)
    requires repo.Valid()
    ensures InterpolatesSafely(GetCourse(repo, client, courseId).issued[0])
    ensures GetCourse(repo, client, courseId).issued[0].text
            == GetCourse(repo, client, otherCourseId).issued[0].text
    ensures GetCourse(repo, client, courseId).issued[0].text.limit == Some(1)
    ensures GetCourse(repo, client, courseId).issued[0].params == [StringParam("course_id", courseId)]
  {
    var checks := repo.ColumnChecks();
    assert IsSafeIdentifier(checks[0].identifier) && IsSafeIdentifier(checks[1].identifier)
      && IsSafeIdentifier(checks[2].identifier) && IsSafeIdentifier(checks[3].identifier)
      && IsSafeIdentifier(checks[4].identifier) && IsSafeIdentifier(checks[5].identifier);
  }
}
