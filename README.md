# Careers submission write path

A Dafny model of the `/careers` POST handler in `app.py`, the Flask service
of the Polypop careers site. An applicant posts a form and a resume file.
The handler then:

- checks the file part;
- derives an S3 object key `ddmmyyyy/<name with spaces as underscores><extension>`;
- uploads the file to the S3 bucket;
- coerces the three numeric fields with `int(x) if x else None`;
- inserts one row into the PostgreSQL `careers` table and commits;
- on an exception, rolls back and answers 400 for missing credentials and
  500 for everything else.

The model also covers the start-up schema step, which creates the table and
adds two columns to it.

The modules follow the handler's parts:

- `PosixPath` is `os.path.splitext` on POSIX, as CPython's `genericpath._splitext`
  computes it. It is proved equal to an independent description: take the last
  path component, drop its leading dots, keep what starts at the last dot.
- `Digits` and `Dates` are digit strings and `strftime('%d%m%Y')`. That
  rendering is proved to round-trip through a parser and to be injective.
- `PyInt` is CPython's `int(text)` in base 10. It skips whitespace at both
  ends: the ASCII characters space, tab, newline, vertical tab, form feed and
  carriage return, and every non-ASCII whitespace character, but not the
  separators U+001C to U+001F that `str.isspace` also accepts. Then comes an
  optional sign and digit groups joined by single underscores, with at most
  4300 digits (CPython's default `sys.get_int_max_str_digits()`). It also
  holds the optional coercion of a form field.
- `ResumeKey` builds the object key and the `s3://bucket/key` URL.
- `ObjectStore` is the S3 bucket. It is a class whose object map
  `upload_fileobj` updates.
- `Ledger` is the `careers` table on the shared connection. It is a class with
  the committed and pending rows, the column set, whether the connection
  is closed and whether the open transaction is aborted. Its methods are insert, commit, rollback and the schema step.
- `Careers` holds `HandlePost`, the effect of one request on the bucket and
  the committed rows. `Post` performs the same steps on a `Bucket` and a
  `Connection`, and its contract says it agrees with `HandlePost`.
- `CareersProperties` holds the properties of one or two requests, stated over
  `HandlePost`.

Whatever the handler cannot decide is a parameter of `Environment`:

- today's date, from `datetime.now`;
- how the upload ends: stored, `NoCredentialsError` or another exception;
- what the database server does with the INSERT and with the COMMIT: it runs
  the statement, refuses it for reasons of its own (the `id` sequence past
  its maximum, a full disk, a timeout, a read-only standby), or cannot be
  reached.

Some refusals follow from the row alone, whatever the server does; the model
calls them the row-level verdict. The INSERT fails in these cases:

- psycopg2 refuses a text parameter holding a NUL character, before
  sending anything;
- the table lacks one of the columns the INSERT names;
- a text is longer than its `VARCHAR` length, and not only by trailing
  spaces. PostgreSQL cuts off an excess made only of spaces and stores
  the rest;
- a number falls outside the 32-bit `INT` range;
- the server refuses it for reasons of its own;
- the server cannot be reached: psycopg2 raises OperationalError and closes
  the connection.

A statement the server refuses aborts the open transaction, and a COMMIT of
an aborted transaction only rolls it back. The handler never commits after a
failed INSERT, but the connection models this state too. The COMMIT itself
can also be refused or find the server unreachable.

The connection is opened once, at start-up, and never reopened. Once it is
closed, `conn.cursor()` and `conn.rollback()` raise InterfaceError. A
rollback that raises inside an `except` clause escapes the handler, and
Flask answers with its own 500. That happens even where the handler meant
to answer 400 for missing credentials.

## Model

| member | source | states |
|---|---|---|
| PosixPath.RFind | app.py:231 | the index returned holds the character, or is -1 |
| PosixPath.RFindIsLast | app.py:231 | no occurrence of the character lies after the index RFind returns |
| PosixPath.SplitExt | app.py:231 | root + extension is the path; the extension is empty or one '.' followed by no other '.'; it never holds '/' |
| PosixPath.ExtensionIsByComponent | app.py:231 | the splitext extension equals the last component's text from its last '.', after dropping that component's leading dots |
| PosixPath.SplitExtByLastComponent | app.py:231 | the extension is decided inside the last path component alone: its last '.', unless only dots precede it |
| PosixPath.BasenameIsAfterLastSlash | app.py:231 | the last component is exactly the text after the last '/' |
| PosixPath.ComponentExtension | app.py:231 | within one component, skipping leading dots and cutting at the last '.' is the same as splitext's leading-dots rule |
| PosixPath.LeadingDotsGiveNoExtension | app.py:231 | a last component made of leading dots and dot-free text (`.pdf`, `...pdf`) has an empty extension |
| PosixPath.DropLeadingDotsIsRun | app.py:231 | what DropLeadingDots removes is a run of '.' only |
| PosixPath.FromLastDotIsRFind | app.py:231 | the reference cut keeps the text from the last '.', or nothing when there is none |
| PosixPath.SplitExtOfPlainName | app.py:231 | `resume.pdf` splits into `resume` and `.pdf` |
| PosixPath.SplitExtKeepsOnlyLastSuffix | app.py:231 | `archive.tar.gz` keeps only `.gz` as its extension |
| PosixPath.SplitExtOfDotFiles | app.py:231 | `.pdf` and `...pdf` have no extension |
| PosixPath.SplitExtIgnoresDotsInDirectories | app.py:231 | a '.' in a directory name (`cv.d/resume`) gives no extension |
| PosixPath.SplitExtAfterLeadingDots | app.py:231 | `..resume.docx` has the extension `.docx` |
| Digits.NatDigits | app.py:251 | the decimal text of n is a non-empty digit string, has no leading zero, and reads back as n |
| Digits.Padded | app.py:235 | n padded to the width has exactly that many digits and reads back as n |
| Dates.Ddmmyyyy | app.py:235 | the folder name of a date is eight ASCII digits |
| Dates.ParseDdmmyyyy | app.py:235 | a folder name is read back only to a valid calendar date |
| Dates.ParseOfDdmmyyyy | app.py:235 | reading a date's folder name gives the date back |
| Dates.DdmmyyyyOfParse | app.py:235 | every accepted folder name is the rendering of the date read from it |
| Dates.DdmmyyyyInjective | app.py:235-238 | distinct dates give distinct folders |
| Dates.PaddedOfDigitsValue | app.py:235 | every digit string is the padded rendering of its value at its own width |
| Dates.FirstOfMay2024 | app.py:235 | 1 May 2024 renders as `01052024` |
| PyInt.TrimStart | app.py:251 | the leading part of `int()`'s strip: the result is a suffix, everything dropped is whitespace, and it does not start with whitespace |
| PyInt.TrimEnd | app.py:251 | the trailing part of `int()`'s strip: the result is a prefix, everything dropped is whitespace, and it does not end with whitespace |
| PyInt.Strip | app.py:251 | the stripped text is no longer than the input and has no whitespace at either end |
| PyInt.StripIdempotent | app.py:251 | stripping twice gives what stripping once gives |
| PyInt.RemoveUnderscores | app.py:251 | the result holds no '_' and is no longer than the input; digits and '_' leave only digits; a digit string is unchanged |
| PyInt.RemoveUnderscoresAppend | app.py:251 | one more character at the end adds that character to the result, unless it is '_'; with the empty case this fixes the result |
| PyInt.ParseInt | app.py:251 | an accepted text, once stripped, is non-empty and ends in a digit, and a negative value comes only from a leading '-' |
| PyInt.ParseIntOfNumeral | app.py:251 | whitespace, an optional '+' or '-', digit groups joined by single '_' with at most 4300 digits, then whitespace, reads as the signed value of the digits with the '_' removed |
| PyInt.ParseIntAcceptsOnlyNumerals | app.py:251 | every text `int()` accepts has that shape and that value |
| PyInt.ParseIntOfDecimal | app.py:251 | `int(str(n)) == n` for every integer whose numeral has at most 4300 digits, negative ones included |
| PyInt.ParseIntRefusesLongNumerals | app.py:251 | a digit string longer than 4300 digits is refused |
| PyInt.ParseIntOfGroupedThousands | app.py:251 | `1_000` reads as 1000 |
| PyInt.ParseIntRefusesFileSeparator | app.py:251 | a leading U+001C is not skipped as whitespace, so `int("\x1c3")` raises |
| PyInt.ParseIntRejectsForeignCharacter | app.py:251 | a character other than whitespace, a digit, a sign or '_' makes `int()` raise |
| PyInt.ParseIntNeedsDigit | app.py:251 | every text `int()` accepts contains a digit |
| PyInt.CoerceOptionalInt | app.py:251-256 | null exactly for an absent or empty field; a number only as `int()` parses it; a raise exactly for non-empty text `int()` refuses |
| PyInt.CoerceAcceptsEveryDecimal | app.py:251-256 | the text of any integer with at most 4300 digits becomes that integer, with no range check |
| PyInt.CoerceZeroIsNotNull | app.py:251 | `"0"` becomes 0, not null, since only the empty text is falsy |
| PyInt.CoerceRejectsForeignCharacter | app.py:251-256 | text with a letter or other foreign character raises |
| ResumeKey.ReplaceSpaces | app.py:232 | same length; each ' ' becomes '_' and every other character, '/' included, is kept |
| ResumeKey.NoSpaceAfterReplace | app.py:232 | the sanitised name has no ' ' |
| ResumeKey.ReplaceSpacesCollision | app.py:232 | two names sanitise alike exactly when they differ only by ' ' against '_' |
| ResumeKey.ResumeFileName | app.py:231-232 | the file name has one character per name character, no ' ' among them, followed by the upload's extension |
| ResumeKey.ObjectKey | app.py:235-238 | the key has eight digits, a '/', then as many characters as the name and the extension together |
| ResumeKey.ObjectKeyLayout | app.py:231-238 | the key is the date folder, '/', the name with spaces replaced, then the extension, which is a suffix of the filename |
| ResumeKey.ObjectKeyCollision | app.py:238 | two submissions share a key exactly when they share the date and the resume file name |
| ResumeKey.SpaceAndUnderscoreNamesCollide | app.py:232-238 | on one day, `Jane Doe` and `Jane_Doe` with the same extension write the same key |
| ResumeKey.ResumeUrl | app.py:242 | the URL is `s3://`, the bucket, '/', then the key |
| ResumeKey.ResumeUrlInjective | app.py:242 | within one bucket, the URL determines the key |
| ResumeKey.JaneDoeKey | app.py:231-238 | `Jane Doe` with `resume.pdf` on 1 May 2024 is stored under `01052024/Jane_Doe.pdf` |
| ResumeKey.JaneDoeFileName | app.py:231-232 | the stored file name for `Jane Doe` and `resume.pdf` is `Jane_Doe.pdf` |
| ResumeKey.JaneDoeSanitised | app.py:232 | `Jane Doe` becomes `Jane_Doe` |
| ObjectStore.Bucket.constructor | app.py:17-26 | the bucket has the given name and objects |
| ObjectStore.Bucket.UploadFileObj | app.py:241 | a successful upload maps the key to the content and replaces any earlier object; a failed one changes nothing |
| Ledger.MigratedColumns | app.py:66-94 | the table then has both added columns; a new table gets the created set; an old one keeps its columns and gains only the added ones |
| Ledger.MigrationIdempotent | app.py:66-94 | running the schema step twice gives the columns of running it once |
| Ledger.MigrationCoversInsert | app.py:83-93 | after the schema step the INSERT's columns all exist exactly when the table is new or already had the five original insert columns |
| Ledger.Clip | app.py:69-76 | what a VARCHAR(limit) column keeps is a prefix of at most `limit` characters, the whole text when it fits |
| Ledger.FitsVarcharIsPadding | app.py:69-76 | a VARCHAR column accepts a text exactly when the text is what the column keeps followed only by spaces |
| Ledger.StoredRow | app.py:69-76 | the stored row keeps the numbers, and equals the row when every value is within its column's limit |
| Ledger.FitsColumns | app.py:69-76 | every row within the column limits is accepted, and an accepted row is stored within them |
| Ledger.InsertAccepted | app.py:245-257 | a row that passes the row-level verdict is stored within the column limits and free of NUL |
| Ledger.CreatedTableAcceptsFittingRows | app.py:67-79 | on a table the step created, the row-level verdict refuses exactly a NUL in a text and the values the column types refuse |
| Ledger.InsertThenCommit | app.py:246-258 | each outcome exactly: committed when the server runs both statements and the row passes the row-level verdict; the connection lost when a sendable row meets an unreachable server at the INSERT, or at the COMMIT after a taken INSERT; the INSERT failed on a NUL, a server refusal or a row-level refusal of a sent row; the COMMIT failed when the server refuses it after a taken INSERT |
| Ledger.Connection.constructor | app.py:56-63 | a fresh connection is open and has no open transaction |
| Ledger.Connection.Insert | app.py:246-257 | the stored form of the row joins the transaction exactly when the transaction is not aborted, the server runs the INSERT and the row passes the row-level verdict; an unreachable server closes the connection and loses the transaction, unless a NUL stops the INSERT first; any other failure of a sent INSERT aborts the transaction |
| Ledger.Connection.Commit | app.py:258 | on an open connection, a COMMIT the server runs appends the transaction's rows to the committed rows in order, none when the transaction was aborted; a refused COMMIT loses the rows; an unreachable server closes the connection; a closed connection raises and changes nothing |
| Ledger.Connection.Rollback | app.py:263-268 | the open transaction's rows are discarded, it is no longer aborted, and the committed rows are kept; it raises exactly when the connection is closed |
| Ledger.Connection.CreateTableIfNotExists | app.py:67-79 | a missing table gets the created columns; an existing table is untouched |
| Ledger.Connection.AddMissingColumns | app.py:83-93 | the table gains `phone_number` and `expected_salary` if missing, and nothing else |
| Ledger.Connection.SetUpSchema | app.py:66-94 | the columns become those MigratedColumns gives, no committed row changes, and the connection stays open with a clean transaction |
| Careers.Message | app.py:223-261 | the body starts with `Application submitted successfully!` exactly for a submission |
| Careers.Respond | app.py:211-268 | 200 exactly for a submission, 400 exactly for the two file-part checks and missing credentials, 500 exactly for an exception handled or escaping |
| Careers.BuildRow | app.py:249-257 | a built row holds the name, position, phone and URL as given, and each number as `int()` reads it, or null for an absent or empty field |
| Careers.HandlePost | app.py:211-268 | the ledger changes only by one appended row on a submission; the bucket changes only by the upload under the request's key; a closed connection stays closed and never submits; the status matches the outcome |
| Careers.Post | app.py:211-268 | the step-by-step handler leaves no open or aborted transaction and gives the response, bucket, committed rows and connection state HandlePost gives |
| Careers.SaveRow | app.py:246-268 | the INSERT, the COMMIT and the rollback after a failure end as InsertThenCommit says; only a commit adds the stored row; the connection is closed exactly when it was lost; no transaction is left open or aborted |
| CareersProperties.MissingFilePartRejected | app.py:222-223 | no file part gives (400, "No file part") and changes nothing, whatever the form holds |
| CareersProperties.EmptyFilenameRejected | app.py:227-228 | an empty filename gives (400, "No selected file") and changes nothing |
| CareersProperties.MissingNameFailsBeforeUpload | app.py:232 | an absent name gives a 500 before anything is uploaded; the handler's own 500 on an open connection, Flask's on a closed one |
| CareersProperties.NoCredentialsGives400 | app.py:263-265 | on an open connection, NoCredentialsError gives (400, "Credentials not available") with nothing stored or recorded |
| CareersProperties.ClosedConnectionFails | app.py:245-268 | on a closed connection every request past the file checks gets Flask's 500, a missing name and missing credentials included, and nothing is recorded |
| CareersProperties.ConnectionLostAtStatement | app.py:246-268 | an unreachable server at the INSERT, or at the COMMIT after a taken INSERT, closes the connection and gives Flask's 500, with the object stored and nothing recorded |
| CareersProperties.ServerRefusalIs500 | app.py:246-268 | a reachable server refusing the INSERT, or the COMMIT after a taken INSERT, gives the handler's 500 naming that statement, keeps the connection open, stores the object and records nothing |
| CareersProperties.StatusMapping | app.py:211-268 | 200 exactly for a submission; 400 exactly for the two file-part checks and missing credentials; 500 exactly for other exceptions; only a 200 changes the ledger |
| CareersProperties.SuccessCondition | app.py:231-261 | success happens exactly when the request reaches the upload on an open connection, the upload succeeds, the row is built, it passes the row-level verdict, and the server runs both the INSERT and the COMMIT |
| CareersProperties.SubmissionSucceeds | app.py:231-261 | success happens exactly when the upload and all three coercions succeed, the row passes the row-level verdict, and the server runs the INSERT and the COMMIT; it then stores the content under the key and appends one row: the form's values and the URL, each text cut to its column |
| CareersProperties.RowOnlyAfterUpload | app.py:241-258 | a changed ledger means the upload succeeded, and the new row's URL, cut to its column, is that of an object holding the uploaded content |
| CareersProperties.FailureAfterUploadOrphansObject | app.py:241-268 | after a successful upload, any failure is a 500 that rolls the ledger back but leaves the object in the bucket |
| CareersProperties.UploadStores | app.py:241 | once the upload succeeds the bucket maps the key to the content, whatever happens to the row |
| CareersProperties.BadNumberIs500 | app.py:251 | on an open connection, a non-numeric experience gives a 500 naming that field, after the upload |
| CareersProperties.FirstBadFieldReported | app.py:249-257 | the fields are coerced in tuple order: a refusal names the first refused field, and a row is built exactly when none is refused |
| CareersProperties.OverlongUrlOrphansObject | app.py:242-257 | a URL the VARCHAR(255) column refuses (over 255 characters, not only by trailing spaces) fails the request after the upload |
| CareersProperties.LaterUploadOverwrites | app.py:238-241 | two uploads under one key leave only the later content there, and no other key changes |
| CareersProperties.NumericFieldsUnbounded | app.py:251-256 | the text of any integer with at most 4300 digits is coerced to that integer in each numeric field, inside or outside the form's 0..50 range |
| CareersProperties.SubmittedEffect | app.py:241-261 | a request that passes every step on an open connection, with both statements run by the server, gives 200, the stored object and the stored form of the row appended |
| CareersProperties.JaneDoeSubmission | app.py:211-261 | Jane Doe's application with `resume.pdf` on 1 May 2024 to a fresh table gives 200, `01052024/Jane_Doe.pdf` in the bucket and the expected row |
| CareersProperties.JaneDoeRow | app.py:246-257 | Jane Doe's form gives the row with experience 3 and null salaries; a freshly created table accepts it and stores it unchanged |
| CareersProperties.JaneDoeEncodable | app.py:246-257 | Jane Doe's row holds no NUL |
| CareersProperties.ThreeIsThree | app.py:251 | the text `3` becomes 3 |

## Left out

- The `home()` route and both HTML templates (app.py:97-207, 271-425). They are presentation only. The uuid, host address and clock they read are not modelled.
- The boto3 S3 client, the Secrets Manager client and psycopg2 are foreign SDKs. The outcome of the upload, of the INSERT and of the COMMIT is an input to the model. The rollback is taken to reach the server whenever the connection is open. The bucket is a map and the table is a column set plus rows.
- The secret fetch and the start-up `raise` when no password is returned (app.py:39-63). This is external I/O done before the service runs.
- `datetime.now()` is replaced by a date parameter. Its year is limited to 1000..9999, so `%Y` always gives four digits.
- Dates.Valid: years below 1000 are excluded. The model therefore does not say how `%Y` renders them.
- The response text of a 500, `str(e)`, is not modelled. A 500 from the handler's own `except` clause carries the `Failure` that caused it instead. Flask's own 500, the `Unhandled` outcome, carries no `Failure`.
- Flask routing, the GET branch and the rendering of the response body are not modelled.
- The SERIAL `id` and the `timestamp` default are filled in by the database. A row here holds only the seven inserted values.
- The digit limit of `int()` is fixed at CPython's default of 4300. The environment variable `PYTHONINTMAXSTRDIGITS` and `sys.set_int_max_str_digits` can change it, and releases before 3.11.0, 3.10.7, 3.9.14, 3.8.14 and 3.7.14 had none.
- `str(n)` of a number over 4300 digits also raises. Decimal stands for `str(n)` only where the lemmas bound its digit count.
- Ledger.Connection.Insert: psycopg2 refuses only NUL among text parameters here. Text the connection's encoding cannot represent is not modelled.
- Ledger.Connection.Commit: a COMMIT whose connection is lost counts as not committed. The server may in fact have committed before the connection dropped; that in-doubt case is not modelled.
- Ledger.Connection.SetUpSchema: each start-up statement is taken to run. A failure there stops the process before it serves any request.
- Ledger.InsertAccepted: it assumes a pre-existing table has the column types the CREATE TABLE statement declares. It does not model other constraints, triggers or type coercions PostgreSQL might apply.
- Concurrent requests on the shared process-wide connection are not modelled. Each request starts with no open transaction.
- `os.makedirs('data', exist_ok=True)` (app.py:23) is unused I/O.
- `int()` accepts only ASCII digits in the model. Python also accepts other Unicode decimal digits, and those are not modelled.
- ObjectStore.Bucket.UploadFileObj: an upload either stores the whole content or nothing. Partial or multipart uploads are not modelled.
- The browser-side `min="0" max="50"` on the experience field (app.py:392) is not enforced by the server. The model has no such check, and NumericFieldsUnbounded states that.
