/**
 * What one or two POSTs to `/careers` do to the bucket and the committed
 * ledger, stated over HandlePost (and so, through Post's contract, over
 * the step-by-step handler).
 */
module CareersProperties {
  import opened Wrappers
  import opened Dates
  import opened PyInt
  import opened PosixPath
  import opened ResumeKey
  import opened ObjectStore
  import opened Ledger
  import opened Careers

  /** A file part with a non-empty file name and an applicant name are present. */
  predicate ReachesUpload(req: Request) {
    req.file.Some? && req.file.value.filename != "" && req.form.name.Some?
  }

  /** No file part: 400 "No file part" and nothing changes, whatever the form holds. */
  lemma MissingFilePartRejected(bucket: string, table: Option<set<string>>, closed: bool,
                                objects: map<string, Bytes>, ledger: seq<Row>, req: Request, env: Environment)
    requires Valid(env.today) && req.file.None?
    ensures HandlePost(bucket, table, closed, objects, ledger, req, env) ==
            Effect(Response(400, NoFilePart), objects, ledger, closed)
    ensures Message(NoFilePart) == "No file part"
  {
  }

  /** An empty file name: 400 "No selected file" and nothing changes, whatever the form holds. */
  lemma EmptyFilenameRejected(bucket: string, table: Option<set<string>>, closed: bool,
                              objects: map<string, Bytes>, ledger: seq<Row>, req: Request, env: Environment)
    requires Valid(env.today) && req.file.Some? && req.file.value.filename == ""
    ensures HandlePost(bucket, table, closed, objects, ledger, req, env) ==
            Effect(Response(400, NoSelectedFile), objects, ledger, closed)
    ensures Message(NoSelectedFile) == "No selected file"
  {
  }

  /**
   * A missing `name` fails before the upload: a 500 with nothing stored and
   * the ledger rolled back (Flask's own 500 when the rollback itself raises).
   */
  lemma MissingNameFailsBeforeUpload(bucket: string, table: Option<set<string>>, closed: bool,
                                     objects: map<string, Bytes>, ledger: seq<Row>, req: Request, env: Environment)
    requires Valid(env.today) && req.file.Some? && req.file.value.filename != "" && req.form.name.None?
    ensures HandlePost(bucket, table, closed, objects, ledger, req, env) ==
            Effect(Response(500, AfterRollback(!closed, ServerError(NameMissing))), objects, ledger, closed)
  {
  }

  /**
   * NoCredentialsError from the upload, on a working connection: 400
   * "Credentials not available", nothing stored or recorded.
   */
  lemma NoCredentialsGives400(bucket: string, table: Option<set<string>>, objects: map<string, Bytes>,
                              ledger: seq<Row>, req: Request, env: Environment)
    requires Valid(env.today) && ReachesUpload(req) && env.upload == NoCredentials
    ensures HandlePost(bucket, table, false, objects, ledger, req, env) ==
            Effect(Response(400, CredentialsUnavailable), objects, ledger, false)
    ensures Message(CredentialsUnavailable) == "Credentials not available"
  {
  }

  /**
   * Once the connection is closed, every request that gets past the file
   * checks ends in Flask's own 500, missing credentials included: the
   * rollback (or the cursor) raises. Nothing is recorded and the connection
   * stays closed.
   */
  lemma ClosedConnectionFails(bucket: string, table: Option<set<string>>, objects: map<string, Bytes>,
                              ledger: seq<Row>, req: Request, env: Environment)
    requires Valid(env.today) && req.file.Some? && req.file.value.filename != ""
    ensures var e := HandlePost(bucket, table, true, objects, ledger, req, env);
      e.response == Response(500, Unhandled) && e.ledger == ledger && e.closed
  {
  }

  /**
   * An unreachable server at the INSERT, or at the COMMIT after an INSERT it
   * took, closes the connection: Flask's own 500 (the rollback raises), the
   * object stays stored, nothing is recorded.
   */
  lemma ConnectionLostAtStatement(bucket: string, table: Option<set<string>>, objects: map<string, Bytes>,
                                  ledger: seq<Row>, req: Request, env: Environment, row: Row)
    requires Valid(env.today) && ReachesUpload(req) && env.upload == Uploaded
    requires BuildRow(req.form, req.form.name.value, ResumeUrl(bucket, ObjectKey(env.today, req.form.name.value, req.file.value.filename))) == RowReady(row)
    requires Encodable(row)
    requires env.insert == Unreachable ||
             (env.insert == Executes && ServerAccepts(table, row) && env.commit == Unreachable)
    ensures HandlePost(bucket, table, false, objects, ledger, req, env) ==
            Effect(Response(500, Unhandled), objects[ObjectKey(env.today, req.form.name.value, req.file.value.filename) := req.file.value.content], ledger, true)
  {
  }

  /**
   * A reachable server that refuses the INSERT, or the COMMIT after an
   * INSERT it took, for reasons of its own: a 500 naming the statement, the
   * rollback succeeds and the connection stays open, nothing is recorded,
   * and the uploaded object stays in the bucket.
   */
  lemma ServerRefusalIs500(bucket: string, table: Option<set<string>>, objects: map<string, Bytes>,
                           ledger: seq<Row>, req: Request, env: Environment, row: Row)
    requires Valid(env.today) && ReachesUpload(req) && env.upload == Uploaded
    requires BuildRow(req.form, req.form.name.value, ResumeUrl(bucket, ObjectKey(env.today, req.form.name.value, req.file.value.filename))) == RowReady(row)
    requires Encodable(row)
    requires env.insert == Refuses ||
             (env.insert == Executes && ServerAccepts(table, row) && env.commit == Refuses)
    ensures HandlePost(bucket, table, false, objects, ledger, req, env) ==
            Effect(Response(500, ServerError(if env.insert == Refuses then InsertFailed else CommitFailed)),
                   objects[ObjectKey(env.today, req.form.name.value, req.file.value.filename) := req.file.value.content], ledger, false)
  {
  }

  /**
   * Statuses: 200 exactly for a submission, 400 exactly for the two
   * file-part checks and missing credentials, 500 for every other
   * exception, raised by the handler or escaping it; only a 200 changes the
   * committed ledger.
   */
  lemma StatusMapping(bucket: string, table: Option<set<string>>, closed: bool, objects: map<string, Bytes>,
                      ledger: seq<Row>, req: Request, env: Environment)
    requires Valid(env.today)
    ensures var e := HandlePost(bucket, table, closed, objects, ledger, req, env);
      && (e.response.status == 200 <==> e.response.outcome.Submitted?)
      && (e.response.status == 400 <==>
            e.response.outcome in {NoFilePart, NoSelectedFile, CredentialsUnavailable})
      && (e.response.status == 500 <==> e.response.outcome.ServerError? || e.response.outcome.Unhandled?)
      && (e.response.status != 200 ==> e.ledger == ledger)
  {
  }

  /**
   * A submission succeeds exactly when the request reaches the upload, the
   * upload succeeds on a working connection, all three numeric fields
   * coerce, the row passes the row-level checks, and the server executes
   * both the INSERT and the COMMIT. It then stores the
   * content under the key, overwriting any earlier object there, and
   * appends exactly one row: the form's values and the resume URL, each
   * text cut to its column's length; nothing else changes.
   */
  lemma SubmissionSucceeds(bucket: string, table: Option<set<string>>, closed: bool, objects: map<string, Bytes>,
                           ledger: seq<Row>, req: Request, env: Environment)
    requires Valid(env.today)
    ensures var e := HandlePost(bucket, table, closed, objects, ledger, req, env);
      e.response.status == 200 <==>
        && ReachesUpload(req) && env.upload == Uploaded && !closed
        && !CoerceOptionalInt(req.form.experience).NotANumber?
        && !CoerceOptionalInt(req.form.salary).NotANumber?
        && !CoerceOptionalInt(req.form.expectedSalary).NotANumber?
        && env.insert == Executes && env.commit == Executes
        && InsertAccepted(table, BuildRow(req.form, req.form.name.value,
                                          ResumeUrl(bucket, ObjectKey(env.today, req.form.name.value, req.file.value.filename))).row)
    ensures var e := HandlePost(bucket, table, closed, objects, ledger, req, env);
      e.response.status == 200 ==>
        var key := ObjectKey(env.today, req.form.name.value, req.file.value.filename);
        && e.objects == objects[key := req.file.value.content]
        && !e.closed
        && |e.ledger| == |ledger| + 1 && e.ledger[..|ledger|] == ledger
        && var row := e.ledger[|ledger|];
        && row.name == Clip(req.form.name.value, 255)
        && row.position == ClipOption(req.form.position, 255)
        && row.phoneNumber == ClipOption(req.form.phone, 20)
        && row.resumeUrl == Clip(ResumeUrl(bucket, key), 255)
        && IntOf(req.form.experience, row.experience)
        && IntOf(req.form.salary, row.salary)
        && IntOf(req.form.expectedSalary, row.expectedSalary)
  {
    SuccessCondition(bucket, table, closed, objects, ledger, req, env);
    var e := HandlePost(bucket, table, closed, objects, ledger, req, env);
    if e.response.status == 200 {
      var key := ObjectKey(env.today, req.form.name.value, req.file.value.filename);
      var built := BuildRow(req.form, req.form.name.value, ResumeUrl(bucket, key));
      SubmittedEffect(bucket, table, objects, ledger, req, env, built.row);
      assert e.ledger[..|ledger|] == ledger;
    }
  }

  lemma SuccessCondition(bucket: string, table: Option<set<string>>, closed: bool, objects: map<string, Bytes>,
                         ledger: seq<Row>, req: Request, env: Environment)
    requires Valid(env.today)
    ensures var e := HandlePost(bucket, table, closed, objects, ledger, req, env);
      e.response.status == 200 <==>
        && ReachesUpload(req) && env.upload == Uploaded && !closed
        && BuildRow(req.form, req.form.name.value, ResumeUrl(bucket, ObjectKey(env.today, req.form.name.value, req.file.value.filename))).RowReady?
        && env.insert == Executes && env.commit == Executes
        && InsertAccepted(table, BuildRow(req.form, req.form.name.value,
                                          ResumeUrl(bucket, ObjectKey(env.today, req.form.name.value, req.file.value.filename))).row)
  {
  }

  /**
   * A committed row always follows a successful upload: when the ledger
   * changed, the row's resume URL (cut to its column's length) is that of
   * an object now in the bucket and holding the uploaded content.
   */
  lemma RowOnlyAfterUpload(bucket: string, table: Option<set<string>>, closed: bool, objects: map<string, Bytes>,
                           ledger: seq<Row>, req: Request, env: Environment)
    requires Valid(env.today)
    ensures var e := HandlePost(bucket, table, closed, objects, ledger, req, env);
      e.ledger != ledger ==>
        && env.upload == Uploaded && ReachesUpload(req)
        && |e.ledger| == |ledger| + 1
        && exists key | key in e.objects ::
             e.objects[key] == req.file.value.content &&
             e.ledger[|ledger|].resumeUrl == Clip(ResumeUrl(bucket, key), 255)
  {
    var e := HandlePost(bucket, table, closed, objects, ledger, req, env);
    if e.ledger != ledger {
      SubmissionSucceeds(bucket, table, closed, objects, ledger, req, env);
      var key := ObjectKey(env.today, req.form.name.value, req.file.value.filename);
      assert key in e.objects;
    }
  }

  /**
   * The upload happens before coercion and the insert: when anything after
   * it fails, the response is 500 and the ledger is rolled back, but the
   * uploaded object stays in the bucket.
   */
  lemma FailureAfterUploadOrphansObject(bucket: string, table: Option<set<string>>, closed: bool,
                                        objects: map<string, Bytes>, ledger: seq<Row>, req: Request, env: Environment)
    requires Valid(env.today) && ReachesUpload(req) && env.upload == Uploaded
    ensures var e := HandlePost(bucket, table, closed, objects, ledger, req, env);
      e.response.status != 200 ==>
        && e.response.status == 500
        && e.ledger == ledger
        && e.objects == objects[ObjectKey(env.today, req.form.name.value, req.file.value.filename) := req.file.value.content]
  {
  }

  /**
   * The numeric fields are coerced in the tuple's order, so a refusal names
   * the first field whose text `int()` rejects, and a row is built exactly
   * when none is rejected.
   */
  lemma FirstBadFieldReported(form: Form, name: string, url: string)
    ensures var c := BuildRow(form, name, url);
      var e, s, x := CoerceOptionalInt(form.experience), CoerceOptionalInt(form.salary),
                     CoerceOptionalInt(form.expectedSalary);
      && (c.RowReady? <==> !e.NotANumber? && !s.NotANumber? && !x.NotANumber?)
      && (c == BadField("experience") <==> e.NotANumber?)
      && (c == BadField("salary") <==> !e.NotANumber? && s.NotANumber?)
      && (c == BadField("expected_salary") <==> !e.NotANumber? && !s.NotANumber? && x.NotANumber?)
  {
  }

  /** Non-numeric text in the experience field is a 500 naming that field, after the upload. */
  lemma BadNumberIs500(bucket: string, table: Option<set<string>>, objects: map<string, Bytes>,
                       ledger: seq<Row>, req: Request, env: Environment)
    requires Valid(env.today) && ReachesUpload(req) && env.upload == Uploaded
    requires CoerceOptionalInt(req.form.experience) == NotANumber
    ensures HandlePost(bucket, table, false, objects, ledger, req, env) ==
            Effect(Response(500, ServerError(BadNumber("experience"))),
                   objects[ObjectKey(env.today, req.form.name.value, req.file.value.filename) := req.file.value.content], ledger, false)
  {
  }

  /**
   * A resume URL that the VARCHAR(255) column refuses (longer than 255
   * characters, and not only by trailing spaces) makes the request fail
   * after the upload: a 500 with the object left in the bucket.
   */
  lemma OverlongUrlOrphansObject(bucket: string, table: Option<set<string>>, closed: bool,
                                 objects: map<string, Bytes>, ledger: seq<Row>, req: Request, env: Environment)
    requires Valid(env.today) && ReachesUpload(req) && env.upload == Uploaded
    requires !FitsVarchar(ResumeUrl(bucket, ObjectKey(env.today, req.form.name.value, req.file.value.filename)), 255)
    ensures var e := HandlePost(bucket, table, closed, objects, ledger, req, env);
      && e.response.status == 500
      && e.ledger == ledger
      && e.objects == objects[ObjectKey(env.today, req.form.name.value, req.file.value.filename) := req.file.value.content]
  {
  }

  /**
   * Two uploads under one key, whatever happens to their rows: afterwards
   * the bucket holds only the later content there and no other key changed.
   */
  lemma LaterUploadOverwrites(bucket: string, table: Option<set<string>>, closed: bool, objects: map<string, Bytes>,
                              ledger: seq<Row>, r1: Request, env1: Environment,
                              mid: map<string, Bytes>, midClosed: bool, midLedger: seq<Row>,
                              r2: Request, env2: Environment)
    requires Valid(env1.today) && Valid(env2.today)
    requires ReachesUpload(r1) && ReachesUpload(r2)
    requires env1.upload == Uploaded && env2.upload == Uploaded
    requires ObjectKey(env1.today, r1.form.name.value, r1.file.value.filename) == ObjectKey(env2.today, r2.form.name.value, r2.file.value.filename)
    requires mid == HandlePost(bucket, table, closed, objects, ledger, r1, env1).objects
    ensures HandlePost(bucket, table, midClosed, mid, midLedger, r2, env2).objects ==
            objects[ObjectKey(env2.today, r2.form.name.value, r2.file.value.filename) := r2.file.value.content]
  {
    var key := ObjectKey(env2.today, r2.form.name.value, r2.file.value.filename);
    UploadStores(bucket, table, closed, objects, ledger, r1, env1);
    UploadStores(bucket, table, midClosed, mid, midLedger, r2, env2);
    LaterPutWins(objects, key, r1.file.value.content, r2.file.value.content);
  }

  lemma LaterPutWins(objects: map<string, Bytes>, key: string, first: Bytes, second: Bytes)
    ensures objects[key := first][key := second] == objects[key := second]
  {
  }

  /** Once the upload succeeds the object is in the bucket, whatever happens to the row. */
  lemma UploadStores(bucket: string, table: Option<set<string>>, closed: bool, objects: map<string, Bytes>,
                     ledger: seq<Row>, req: Request, env: Environment)
    requires Valid(env.today) && ReachesUpload(req) && env.upload == Uploaded
    ensures HandlePost(bucket, table, closed, objects, ledger, req, env).objects ==
            objects[ObjectKey(env.today, req.form.name.value, req.file.value.filename) := req.file.value.content]
  {
  }

  /**
   * The numeric fields are not range-checked: the decimal text of any
   * integer within `int()`'s digit limit is coerced to that integer,
   * whether or not the form's 0..50 bound holds.
   */
  lemma NumericFieldsUnbounded(form: Form, name: string, url: string, x: int, y: int, z: int)
    requires DigitCount(x) <= MaxStrDigits && DigitCount(y) <= MaxStrDigits && DigitCount(z) <= MaxStrDigits
    requires form.experience == Some(PyInt.Decimal(x))
    requires form.salary == Some(PyInt.Decimal(y))
    requires form.expectedSalary == Some(PyInt.Decimal(z))
    ensures BuildRow(form, name, url).RowReady?
    ensures var row := BuildRow(form, name, url).row;
      row.experience == Some(x) && row.salary == Some(y) && row.expectedSalary == Some(z)
  {
    CoerceAcceptsEveryDecimal(x);
    CoerceAcceptsEveryDecimal(y);
    CoerceAcceptsEveryDecimal(z);
  }

  /** The bucket name used when S3_BUCKET_NAME is not set. */
  const DefaultBucket: string := "my-pythonapp-bucket"

  /**
   * Jane Doe applies as Engineer with 3 years' experience and resume.pdf on
   * 1 May 2024, against a freshly created table: 200, the file is stored
   * under 01052024/Jane_Doe.pdf and one row records it.
   */
  lemma JaneDoeSubmission(req: Request, env: Environment, objects: map<string, Bytes>, ledger: seq<Row>, content: Bytes)
    requires req == Request(Form(Some("Jane Doe"), None, Some("3"), Some("Engineer"), None, None),
                            Some(FilePart("resume.pdf", content)))
    requires env == Environment(Date(2024, 5, 1), Uploaded, Executes, Executes)
    ensures Valid(env.today)
    ensures HandlePost(DefaultBucket, Some(MigratedColumns(None)), false, objects, ledger, req, env) ==
            var key := "01052024" + "/" + "Jane_Doe.pdf";
            Effect(Response(200, Submitted("Jane_Doe.pdf", "01052024")),
                   objects[key := content],
                   ledger + [Row("Jane Doe", Some(3), Some("Engineer"), None,
                                 "s3://" + "my-pythonapp-bucket" + "/" + key, None, None)],
                   false)
  {
    var name, filename := req.form.name.value, req.file.value.filename;
    JaneDoeKey(env.today, name, filename);
    JaneDoeFileName(name, filename);
    FirstOfMay2024(env.today);
    var url := ResumeUrl(DefaultBucket, "01052024" + "/" + "Jane_Doe.pdf");
    JaneDoeRow(req.form, url);
    var row := BuildRow(req.form, name, url).row;
    SubmittedEffect(DefaultBucket, Some(MigratedColumns(None)), objects, ledger, req, env, row);
  }

  /** The effect of a request that gets through every step. */
  lemma SubmittedEffect(bucket: string, table: Option<set<string>>, objects: map<string, Bytes>,
                        ledger: seq<Row>, req: Request, env: Environment, row: Row)
    requires Valid(env.today) && ReachesUpload(req) && env.upload == Uploaded
    requires env.insert == Executes && env.commit == Executes
    requires BuildRow(req.form, req.form.name.value, ResumeUrl(bucket, ObjectKey(env.today, req.form.name.value, req.file.value.filename))) == RowReady(row)
    requires InsertAccepted(table, row)
    ensures HandlePost(bucket, table, false, objects, ledger, req, env) ==
            Effect(Response(200, Submitted(ResumeFileName(req.form.name.value, req.file.value.filename),
                                           Ddmmyyyy(env.today))),
                   objects[ObjectKey(env.today, req.form.name.value, req.file.value.filename) := req.file.value.content],
                   ledger + [StoredRow(row)], false)
  {
  }

  lemma JaneDoeRow(form: Form, url: string)
    requires form == Form(Some("Jane Doe"), None, Some("3"), Some("Engineer"), None, None)
    requires url == ResumeUrl(DefaultBucket, "01052024" + "/" + "Jane_Doe.pdf")
    ensures BuildRow(form, "Jane Doe", url) == RowReady(Row("Jane Doe", Some(3), Some("Engineer"), None, url, None, None))
    ensures InsertAccepted(Some(MigratedColumns(None)), BuildRow(form, "Jane Doe", url).row)
    ensures StoredRow(BuildRow(form, "Jane Doe", url).row) == BuildRow(form, "Jane Doe", url).row
  {
    ThreeIsThree(form.experience);
    var row := Row("Jane Doe", Some(3), Some("Engineer"), None, url, None, None);
    assert WithinLimits(row);
    JaneDoeEncodable(row, url);
    CreatedTableAcceptsFittingRows(row);
  }

  lemma JaneDoeEncodable(row: Row, url: string)
    requires url == ResumeUrl(DefaultBucket, "01052024" + "/" + "Jane_Doe.pdf")
    requires row == Row("Jane Doe", Some(3), Some("Engineer"), None, url, None, None)
    ensures Encodable(row)
  {
    var key := "01052024" + "/" + "Jane_Doe.pdf";
    assert NoNul("01052024") && NoNul("/") && NoNul("Jane_Doe.pdf");
    assert NoNul(key);
    assert NoNul("s3://") && NoNul(DefaultBucket);
    assert url == "s3://" + DefaultBucket + "/" + key;
    assert NoNul("Jane Doe") && NoNul("Engineer");
  }

  lemma ThreeIsThree(field: Option<string>)
    requires field == Some("3")
    ensures CoerceOptionalInt(field) == Number(3)
  {
    CoerceAcceptsEveryDecimal(3);
    assert PyInt.Decimal(3) == "3";
  }
}
