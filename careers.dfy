/**
 * The POST branch of the `/careers` route: validate the file part, derive
 * the object key, upload the resume, coerce the numeric fields, insert and
 * commit the row, and map exceptions to responses with a rollback.
 *
 * HandlePost states the whole effect of one request on the bucket and the
 * committed ledger; Post performs it step by step on a Bucket and a
 * Connection and is proved to agree with it.
 */
module Careers {
  import opened Wrappers
  import opened Dates
  import opened PyInt
  import opened PosixPath
  import opened ResumeKey
  import opened ObjectStore
  import opened Ledger

  /** `request.files['file']`: the client's file name and the bytes sent. */
  datatype FilePart = FilePart(filename: string, content: Bytes)

  /** `request.form.get(...)` for each field; None when the field is absent. */
  datatype Form = Form(
    name: Option<string>,
    phone: Option<string>,
    experience: Option<string>,
    position: Option<string>,
    salary: Option<string>,
    expectedSalary: Option<string>)

  datatype Request = Request(form: Form, file: Option<FilePart>)

  /**
   * What the handler cannot see: today's date (`datetime.now()`), how the
   * upload ends, and what the database server does with the INSERT and with
   * the COMMIT.
   */
  datatype Environment = Environment(today: Date, upload: UploadResult, insert: ServerVerdict, commit: ServerVerdict)

  /** The exception behind a 500 response from the handler's own `except` clause. */
  datatype Failure =
    | NameMissing                 // `None.replace` raises AttributeError
    | UploadFailed                // any upload exception other than NoCredentialsError
    | BadNumber(field: string)    // `int(...)` raised ValueError on this form field
    | InsertFailed                // the INSERT raised and the connection survived
    | CommitFailed                // the server refused the COMMIT

  datatype Outcome =
    | Submitted(fileName: string, folder: string)
    | NoFilePart
    | NoSelectedFile
    | CredentialsUnavailable
    | ServerError(cause: Failure)
    | Unhandled                   // `conn.rollback()` raised in an `except` clause: Flask's own 500

  datatype Response = Response(status: int, outcome: Outcome)

  /** The response body, for every outcome whose text does not depend on `str(e)`. */
  function Message(outcome: Outcome): (text: string)
    requires !outcome.ServerError? && !outcome.Unhandled?
    ensures outcome.Submitted? <==> |text| >= 35 && text[..35] == "Application submitted successfully!"
  {
    match outcome
    case Submitted(fileName, folder) =>
      "Application submitted successfully! Resume '" + fileName + "' uploaded to S3 folder '"
      + folder + "' and saved to database."
    case NoFilePart => "No file part"
    case NoSelectedFile => "No selected file"
    case CredentialsUnavailable => "Credentials not available"
  }

  /** The status each outcome is answered with. */
  function Respond(outcome: Outcome): (r: Response)
    ensures r.outcome == outcome
    ensures r.status == 200 <==> outcome.Submitted?
    ensures r.status == 400 <==> outcome in {NoFilePart, NoSelectedFile, CredentialsUnavailable}
    ensures r.status == 500 <==> outcome.ServerError? || outcome.Unhandled?
  {
    var status :=
      match outcome
      case Submitted(_, _) => 200
      case NoFilePart | NoSelectedFile | CredentialsUnavailable => 400
      case ServerError(_) | Unhandled => 500;
    Response(status, outcome)
  }

  /**
   * An `except` clause rolls back before answering: when `conn.rollback()`
   * raises (the connection is closed), its exception escapes instead.
   */
  function AfterRollback(rolledBack: bool, outcome: Outcome): Outcome {
    if rolledBack then outcome else Unhandled
  }

  /** The INSERT's parameter tuple, or the first numeric field whose `int()` raised. */
  datatype Coercion = RowReady(row: Row) | BadField(field: string)

  /**
   * `v` is what `int(x) if x else None` gives for the field: null for an
   * absent or empty field, otherwise the value `int()` reads.
   */
  predicate IntOf(field: Option<string>, v: Option<int>) {
    && (v.None? <==> field in {None, Some("")})
    && (v.Some? ==> field.Some? && ParseInt(field.value) == v)
  }

  function AsNullable(c: Coerced): Option<int>
    requires !c.NotANumber?
  {
    if c.Number? then Some(c.value) else None
  }

  /**
   * Builds the parameter tuple in its evaluation order: experience, then
   * salary, then expected_salary are coerced.
   */
  function BuildRow(form: Form, name: string, url: string): (c: Coercion)
    ensures c.RowReady? ==>
      && c.row.name == name && c.row.position == form.position
      && c.row.resumeUrl == url && c.row.phoneNumber == form.phone
      && IntOf(form.experience, c.row.experience)
      && IntOf(form.salary, c.row.salary)
      && IntOf(form.expectedSalary, c.row.expectedSalary)
  {
    var experience := CoerceOptionalInt(form.experience);
    var salary := CoerceOptionalInt(form.salary);
    var expected := CoerceOptionalInt(form.expectedSalary);
    if experience.NotANumber? then BadField("experience")
    else if salary.NotANumber? then BadField("salary")
    else if expected.NotANumber? then BadField("expected_salary")
    else RowReady(Row(name, AsNullable(experience), form.position, AsNullable(salary), url,
                      form.phone, AsNullable(expected)))
  }

  /** The bucket contents, committed ledger and connection state after a request, with its response. */
  datatype Effect = Effect(response: Response, objects: map<string, Bytes>, ledger: seq<Row>, closed: bool)

  /**
   * The effect of one POST on the bucket `bucket`, the committed rows and
   * the connection (`closed` once the server connection was lost).
   */
  function HandlePost(bucket: string, table: Option<set<string>>, closed: bool, objects: map<string, Bytes>,
                      ledger: seq<Row>, req: Request, env: Environment): (e: Effect)
    requires Valid(env.today)
    ensures e.ledger == ledger ||
            (e.response.outcome.Submitted? && |e.ledger| == |ledger| + 1 && e.ledger[..|ledger|] == ledger)
    ensures e.objects == objects ||
            (req.file.Some? && req.form.name.Some? &&
             e.objects == objects[ObjectKey(env.today, req.form.name.value, req.file.value.filename) :=
                                  req.file.value.content])
    ensures closed ==> e.closed && !e.response.outcome.Submitted?
    ensures e.response == Respond(e.response.outcome)
  {
    if req.file.None? then Effect(Respond(NoFilePart), objects, ledger, closed)
    else if req.file.value.filename == "" then Effect(Respond(NoSelectedFile), objects, ledger, closed)
    else if req.form.name.None? then
      Effect(Respond(AfterRollback(!closed, ServerError(NameMissing))), objects, ledger, closed)
    else
      var name := req.form.name.value;
      var key := ObjectKey(env.today, name, req.file.value.filename);
      match env.upload
      case NoCredentials => Effect(Respond(AfterRollback(!closed, CredentialsUnavailable)), objects, ledger, closed)
      case UploadError => Effect(Respond(AfterRollback(!closed, ServerError(UploadFailed))), objects, ledger, closed)
      case Uploaded =>
        var stored := objects[key := req.file.value.content];
        // `conn.cursor()` raises on a closed connection, and so does the rollback after it
        if closed then Effect(Respond(Unhandled), stored, ledger, closed)
        else
          match BuildRow(req.form, name, ResumeUrl(bucket, key))
          case BadField(field) => Effect(Respond(ServerError(BadNumber(field))), stored, ledger, false)
          case RowReady(row) =>
            match InsertThenCommit(table, row, env.insert, env.commit)
            case StatementFailed(atCommit) =>
              Effect(Respond(ServerError(if atCommit then CommitFailed else InsertFailed)), stored, ledger, false)
            case ConnectionLost => Effect(Respond(Unhandled), stored, ledger, true)
            case Committed =>
              var fileName := ResumeFileName(name, req.file.value.filename);
              Effect(Respond(Submitted(fileName, Ddmmyyyy(env.today))), stored, ledger + [StoredRow(row)], false)
  }

  /**
   * The handler, step by step, over the bucket and the shared connection.
   * Every exception path rolls the connection back; the early 400 returns
   * touch neither store.
   */
  method Post(store: Bucket, conn: Connection, req: Request, env: Environment) returns (resp: Response)
    requires Valid(env.today)
    requires conn.pending == [] && !conn.aborted
    modifies store, conn
    ensures conn.pending == [] && !conn.aborted && conn.table == old(conn.table)
    ensures var e := HandlePost(store.name, old(conn.table), old(conn.closed), old(store.objects),
                                old(conn.committed), req, env);
            resp == e.response && store.objects == e.objects && conn.committed == e.ledger &&
            conn.closed == e.closed
  {
    if req.file.None? {
      return Respond(NoFilePart);
    }
    var file := req.file.value;
    if file.filename == "" {
      return Respond(NoSelectedFile);
    }
    if req.form.name.None? {
      var rolledBack := conn.Rollback();
      return Respond(AfterRollback(rolledBack, ServerError(NameMissing)));
    }
    var userName := req.form.name.value;
    var fileName := ReplaceSpaces(userName) + SplitExt(file.filename).1;
    var folder := Ddmmyyyy(env.today);
    var key := folder + "/" + fileName;
    store.UploadFileObj(file.content, key, env.upload);
    if env.upload.NoCredentials? {
      var rolledBack := conn.Rollback();
      return Respond(AfterRollback(rolledBack, CredentialsUnavailable));
    } else if env.upload.UploadError? {
      var rolledBack := conn.Rollback();
      return Respond(AfterRollback(rolledBack, ServerError(UploadFailed)));
    }
    var url := "s3://" + store.name + "/" + key;
    if conn.closed {
      // `conn.cursor()` raises InterfaceError; the rollback in the except clause raises again,
      // so Flask answers with its own 500
      var rolledBack := conn.Rollback();
      return Respond(Unhandled);
    }
    var experience := CoerceOptionalInt(req.form.experience);
    if experience.NotANumber? {
      var rolledBack := conn.Rollback();
      return Respond(AfterRollback(rolledBack, ServerError(BadNumber("experience"))));
    }
    var salary := CoerceOptionalInt(req.form.salary);
    if salary.NotANumber? {
      var rolledBack := conn.Rollback();
      return Respond(AfterRollback(rolledBack, ServerError(BadNumber("salary"))));
    }
    var expected := CoerceOptionalInt(req.form.expectedSalary);
    if expected.NotANumber? {
      var rolledBack := conn.Rollback();
      return Respond(AfterRollback(rolledBack, ServerError(BadNumber("expected_salary"))));
    }
    var row := Row(userName, AsNullable(experience), req.form.position, AsNullable(salary), url,
                   req.form.phone, AsNullable(expected));
    var saved := SaveRow(conn, row, env.insert, env.commit);
    match saved
    case Committed =>
      resp := Respond(Submitted(fileName, folder));
    case StatementFailed(atCommit) =>
      resp := Respond(ServerError(if atCommit then CommitFailed else InsertFailed));
    case ConnectionLost =>
      resp := Respond(Unhandled);
  }

  /**
   * The end of the handler's `try` block: the INSERT and the COMMIT, with
   * the `except` clause's rollback when either raises. A lost connection
   * makes that rollback raise too.
   */
  method SaveRow(conn: Connection, row: Row, insert: ServerVerdict, commit: ServerVerdict) returns (t: Transaction)
    requires !conn.closed && conn.pending == [] && !conn.aborted
    modifies conn
    ensures t == InsertThenCommit(old(conn.table), row, insert, commit)
    ensures conn.committed == if t == Committed then old(conn.committed) + [StoredRow(row)] else old(conn.committed)
    ensures conn.closed <==> t == ConnectionLost
    ensures conn.pending == [] && !conn.aborted && conn.table == old(conn.table)
  {
    var inserted := conn.Insert(row, insert);
    if !inserted {
      var rolledBack := conn.Rollback();
      return if rolledBack then StatementFailed(false) else ConnectionLost;
    }
    var committed := conn.Commit(commit);
    if !committed {
      var rolledBack := conn.Rollback();
      return if rolledBack then StatementFailed(true) else ConnectionLost;
    }
    t := Committed;
  }
}
