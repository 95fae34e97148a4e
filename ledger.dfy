/**
 * The `careers` table in PostgreSQL: its column set, the schema set-up run
 * at start-up, and the rows on the shared connection, committed or still
 * pending in the open transaction.
 */
module Ledger {
  import opened Wrappers

  /** One application row; `id` and `timestamp` are filled in by the database. */
  datatype Row = Row(
    name: string,
    experience: Option<int>,
    position: Option<string>,
    salary: Option<int>,
    resumeUrl: string,
    phoneNumber: Option<string>,
    expectedSalary: Option<int>)

  /** The columns `CREATE TABLE IF NOT EXISTS careers` declares. */
  const CreatedColumns: set<string> :=
    {"id", "name", "experience", "position", "salary", "resume_url", "phone_number", "expected_salary", "timestamp"}

  /** The columns the `DO $$ ... $$` block adds when missing. */
  const AddedColumns: set<string> := {"phone_number", "expected_salary"}

  /** The columns the handler's INSERT names. */
  const InsertColumns: set<string> :=
    {"name", "experience", "position", "salary", "resume_url", "phone_number", "expected_salary"}

  /**
   * The columns after the start-up schema step, from the columns before it
   * (None when the table does not exist).
   */
  function MigratedColumns(table: Option<set<string>>): (cols: set<string>)
    ensures AddedColumns <= cols
    ensures table == None ==> cols == CreatedColumns
    ensures table.Some? ==> table.value <= cols && cols - table.value <= AddedColumns
  {
    match table
    case None => CreatedColumns
    case Some(existing) => existing + AddedColumns
  }

  /** Running the schema step on a table it already migrated changes nothing. */
  lemma MigrationIdempotent(table: Option<set<string>>)
    ensures MigratedColumns(Some(MigratedColumns(table))) == MigratedColumns(table)
  {
  }

  /**
   * After the schema step every column the INSERT names exists exactly when
   * the table was created by it or already had the five original insert columns.
   */
  lemma MigrationCoversInsert(table: Option<set<string>>)
    ensures InsertColumns <= MigratedColumns(table) <==>
            table == None || InsertColumns - AddedColumns <= table.value
  {
    if table.Some? && InsertColumns <= MigratedColumns(table) {
      forall c | c in InsertColumns - AddedColumns ensures c in table.value {
        assert c in MigratedColumns(table);
      }
    }
  }

  const IntMin: int := -0x8000_0000
  const IntMax: int := 0x7FFF_FFFF

  predicate FitsInt(v: Option<int>) {
    v.None? || IntMin <= v.value <= IntMax
  }

  /** psycopg2 refuses a string parameter holding NUL with ValueError, before anything is sent. */
  predicate NoNul(s: string) {
    '\0' !in s
  }

  /** Every text parameter of the INSERT can be sent. */
  predicate Encodable(row: Row) {
    && NoNul(row.name)
    && (row.position.None? || NoNul(row.position.value))
    && NoNul(row.resumeUrl)
    && (row.phoneNumber.None? || NoNul(row.phoneNumber.value))
  }

  /**
   * VARCHAR(limit) input: a text of at most `limit` characters, or a longer
   * one whose excess characters are all spaces (PostgreSQL cuts those off
   * instead of raising).
   */
  predicate FitsVarchar(s: string, limit: nat) {
    |s| <= limit || forall i | limit <= i < |s| :: s[i] == ' '
  }

  /** What a VARCHAR(limit) column keeps of a text it accepts. */
  function Clip(s: string, limit: nat): (t: string)
    ensures |t| <= limit && |t| <= |s| && t == s[..|t|]
    ensures |s| <= limit ==> t == s
    ensures |s| > limit ==> |t| == limit
  {
    if |s| <= limit then s else s[..limit]
  }

  function ClipOption(s: Option<string>, limit: nat): (t: Option<string>)
    ensures t.Some? <==> s.Some?
    ensures s.Some? ==> t.value == Clip(s.value, limit)
  {
    if s.None? then None else Some(Clip(s.value, limit))
  }

  /** `n` spaces. */
  function Spaces(n: nat): (t: string)
    ensures |t| == n && forall i | 0 <= i < n :: t[i] == ' '
  {
    if n == 0 then [] else Spaces(n - 1) + [' ']
  }

  /** A VARCHAR column accepts a text exactly when the text is what it keeps followed by spaces. */
  lemma FitsVarcharIsPadding(s: string, limit: nat)
    ensures FitsVarchar(s, limit) <==> s == Clip(s, limit) + Spaces(|s| - |Clip(s, limit)|)
  {
    var t := Clip(s, limit);
    var pad := Spaces(|s| - |t|);
    if FitsVarchar(s, limit) {
      assert forall i | 0 <= i < |s| :: s[i] == (t + pad)[i];
    }
  }

  /** The hard limits of the column types: VARCHAR(255), VARCHAR(20) and INT. */
  predicate WithinLimits(row: Row) {
    && |row.name| <= 255
    && (row.position.None? || |row.position.value| <= 255)
    && |row.resumeUrl| <= 255
    && (row.phoneNumber.None? || |row.phoneNumber.value| <= 20)
    && FitsInt(row.experience) && FitsInt(row.salary) && FitsInt(row.expectedSalary)
  }

  /** The row as the table stores it: each text cut to its column's length. */
  function StoredRow(row: Row): (stored: Row)
    ensures stored.experience == row.experience && stored.salary == row.salary
    ensures stored.expectedSalary == row.expectedSalary
    ensures WithinLimits(row) ==> stored == row
  {
    row.(name := Clip(row.name, 255), position := ClipOption(row.position, 255),
         resumeUrl := Clip(row.resumeUrl, 255), phoneNumber := ClipOption(row.phoneNumber, 20))
  }

  /** The column types accept the row's values. */
  function FitsColumns(row: Row): (ok: bool)
    ensures WithinLimits(row) ==> ok
    ensures ok ==> WithinLimits(StoredRow(row))
  {
    && FitsVarchar(row.name, 255)
    && (row.position.None? || FitsVarchar(row.position.value, 255))
    && FitsVarchar(row.resumeUrl, 255)
    && (row.phoneNumber.None? || FitsVarchar(row.phoneNumber.value, 20))
    && FitsInt(row.experience) && FitsInt(row.salary) && FitsInt(row.expectedSalary)
  }

  /** What the server demands of the INSERT: the named columns exist and the values fit them. */
  predicate ServerAccepts(table: Option<set<string>>, row: Row) {
    table.Some? && InsertColumns <= table.value && FitsColumns(row)
  }

  /**
   * The row-level verdict on the INSERT: psycopg2 can send it and the table
   * admits it. A reachable server may still refuse it for reasons of its own.
   */
  function InsertAccepted(table: Option<set<string>>, row: Row): (ok: bool)
    ensures ok ==> Encodable(StoredRow(row)) && WithinLimits(StoredRow(row))
  {
    Encodable(row) && ServerAccepts(table, row)
  }

  /**
   * On a table the schema step created, the row-level verdict refuses
   * exactly the text psycopg2 cannot send and the values the column types
   * refuse.
   */
  lemma CreatedTableAcceptsFittingRows(row: Row)
    ensures InsertAccepted(Some(MigratedColumns(None)), row) <==> Encodable(row) && FitsColumns(row)
  {
    MigrationCoversInsert(None);
  }

  /**
   * What the database server does with one statement it is sent: runs it,
   * raises an error of its own (a sequence past its maximum, a full disk, a
   * timeout, a read-only standby), or cannot be reached.
   */
  datatype ServerVerdict = Executes | Refuses | Unreachable

  /** How the handler's INSERT-then-COMMIT ends. */
  datatype Transaction =
    | Committed                      // both statements ran: the stored row is committed
    | StatementFailed(atCommit: bool) // psycopg2 or the server refused a statement; the connection survived
    | ConnectionLost                 // the server could not be reached; the connection is closed

  /**
   * The INSERT of `row` followed by the COMMIT, on an open connection with
   * a clean transaction, given what the server does with each statement.
   */
  function InsertThenCommit(table: Option<set<string>>, row: Row, insert: ServerVerdict,
                            commit: ServerVerdict): (t: Transaction)
    ensures t == Committed <==> insert == Executes && commit == Executes && InsertAccepted(table, row)
    ensures t == ConnectionLost <==>
              Encodable(row) &&
              (insert == Unreachable || (insert == Executes && InsertAccepted(table, row) && commit == Unreachable))
    ensures t == StatementFailed(false) <==>
              !Encodable(row) || insert == Refuses || (insert == Executes && !InsertAccepted(table, row))
    ensures t == StatementFailed(true) <==> insert == Executes && InsertAccepted(table, row) && commit == Refuses
  {
    if !Encodable(row) then StatementFailed(false)
    else
      match insert
      case Unreachable => ConnectionLost
      case Refuses => StatementFailed(false)
      case Executes =>
        if !ServerAccepts(table, row) then StatementFailed(false)
        else
          match commit
          case Unreachable => ConnectionLost
          case Refuses => StatementFailed(true)
          case Executes => Committed
  }

  /**
   * The process-wide connection `conn` and the `careers` table behind it.
   * Once closed (the server connection was lost), psycopg2 raises
   * InterfaceError on every later use, and nothing reopens it. A statement
   * the server refuses aborts the open transaction: its rows are gone, later
   * statements fail until the transaction ends, and a COMMIT then only ends it.
   */
  class Connection {
    var table: Option<set<string>>
    var committed: seq<Row>
    var pending: seq<Row>
    var closed: bool
    var aborted: bool

    constructor (table: Option<set<string>>, committed: seq<Row>)
      ensures this.table == table && this.committed == committed && pending == [] && !closed && !aborted
    {
      this.table := table;
      this.committed := committed;
      pending := [];
      closed := false;
      aborted := false;
    }

    /**
     * `cursor.execute(INSERT ...)` on a cursor of the open connection. A NUL
     * in a text parameter raises before anything is sent. Otherwise the
     * server decides: unreachable, it raises OperationalError and the
     * connection closes, losing the transaction; reachable, the row joins the
     * open transaction, as the table stores it, when the transaction is not
     * aborted, the row passes the row-level checks and nothing else makes the
     * server refuse it; any refusal aborts the transaction.
     */
    method Insert(row: Row, server: ServerVerdict) returns (ok: bool)
      requires !closed
      modifies this
      ensures ok <==> !old(aborted) && server == Executes && InsertAccepted(table, row)
      ensures closed <==> Encodable(row) && server == Unreachable
      ensures aborted <==> !closed && (old(aborted) || (Encodable(row) && !ok))
      ensures pending == if ok then old(pending) + [StoredRow(row)] else if Encodable(row) then [] else old(pending)
      ensures table == old(table) && committed == old(committed)
    {
      if !Encodable(row) {
        ok := false;
      } else if server == Unreachable {
        ok := false;
        closed := true;
        aborted := false;
        pending := [];
      } else {
        ok := !aborted && server == Executes && ServerAccepts(table, row);
        if ok {
          pending := pending + [StoredRow(row)];
        } else {
          aborted := true;
          pending := [];
        }
      }
    }

    /**
     * `conn.commit()`: raises on a closed connection. Otherwise the server
     * ends the transaction: unreachable, the connection closes; refusing, it
     * raises and the transaction's rows are lost; executing, the pending rows
     * become committed, none when the transaction was aborted (PostgreSQL
     * answers such a COMMIT with a rollback, and psycopg2 does not raise).
     */
    method Commit(server: ServerVerdict) returns (ok: bool)
      modifies this
      ensures ok <==> !old(closed) && server == Executes
      ensures closed <==> old(closed) || server == Unreachable
      ensures committed == if ok && !old(aborted) then old(committed) + old(pending) else old(committed)
      ensures pending == if old(closed) then old(pending) else []
      ensures aborted == if old(closed) then old(aborted) else false
      ensures table == old(table)
    {
      ok := !closed && server == Executes;
      if !closed {
        if ok && !aborted {
          committed := committed + pending;
        }
        pending := [];
        aborted := false;
        closed := server == Unreachable;
      }
    }

    /**
     * `conn.rollback()`: the open transaction's rows are discarded; on a
     * closed connection, whose transaction is already gone, it raises.
     */
    method Rollback() returns (ok: bool)
      modifies this
      ensures ok == !closed
      ensures committed == old(committed) && pending == [] && !aborted
      ensures table == old(table) && closed == old(closed)
    {
      ok := !closed;
      pending := [];
      aborted := false;
    }

    /** `CREATE TABLE IF NOT EXISTS careers (...)`. */
    method CreateTableIfNotExists()
      modifies this
      ensures table == Some(if old(table) == None then CreatedColumns else old(table).value)
      ensures committed == old(committed) && pending == old(pending)
      ensures closed == old(closed) && aborted == old(aborted)
    {
      if table == None {
        table := Some(CreatedColumns);
      }
    }

    /** The `DO $$ ... $$` block: each of phone_number and expected_salary is added if missing. */
    method AddMissingColumns()
      requires table.Some?
      modifies this
      ensures table == Some(old(table).value + AddedColumns)
      ensures committed == old(committed) && pending == old(pending)
      ensures closed == old(closed) && aborted == old(aborted)
    {
      var columns := table.value;
      if "phone_number" !in columns {
        columns := columns + {"phone_number"};
      }
      if "expected_salary" !in columns {
        columns := columns + {"expected_salary"};
      }
      assert columns == table.value + AddedColumns;
      table := Some(columns);
    }

    /**
     * The start-up schema step on the freshly opened connection: create the
     * table, commit, add missing columns, commit. Any failure here stops the
     * process before it serves a request, so each statement is taken to run.
     */
    method SetUpSchema()
      requires pending == [] && !closed && !aborted
      modifies this
      ensures table == Some(MigratedColumns(old(table)))
      ensures committed == old(committed) && pending == [] && !closed && !aborted
    {
      CreateTableIfNotExists();
      assert CreatedColumns + AddedColumns == CreatedColumns;
      var created := Commit(Executes);
      AddMissingColumns();
      var added := Commit(Executes);
    }
  }
}
