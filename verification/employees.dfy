/** The bulk create-or-update of employees and the resign operation: per-record
    validation keyed by email, the results dictionary, the status code chosen,
    and the maintenance of the content-chunk table (every affected employee's
    chunks are deleted and compiled afresh, other employees' rows are left alone). */
module Employees {
  import opened Common
  import opened Text
  import opened Chunking

  // ---------------------------------------------------------------------------
  // Results dictionary

  /** A key of `validation_results` / `results_map`: an email string, or `None`
      for a record whose `email` is `null`. */
  datatype Key = NoneKey | Email(address: string)

  datatype Action = Inserted | Updated

  /** A value of the results dictionary: `{"status": "failed", "error": …}` or
      `{"employee_id": …, "status": "success (inserted|updated)"}`. */
  datatype Entry = Failed(error: string) | Succeeded(employeeId: int, action: Action)

  /** An insertion-ordered dictionary from keys to entries; the response lists
      its items as `{"email": key, **entry}`. */
  type Results = seq<(Key, Entry)>

  const MissingFields := "Missing required fields (email, full_name, job_title)"

  // ---------------------------------------------------------------------------
  // Validation and preparation (the first loop)

  /** `employee.get('email', f'unknown_{i}')` */
  function EmailKey(e: EmployeeRecord, i: nat): Key
  {
    match e.email
    case Absent => Email("unknown_" + IntToString(i))
    case Null => NoneKey
    case Present(s) => Email(s)
  }

  /** A truthy string field: present, not `null`, not empty. */
  predicate Filled(f: Field<string>)
  {
    f.Present? && f.value != ""
  }

  /** The required fields `email`, `full_name` and `job_title` are all truthy. */
  predicate IsValid(e: EmployeeRecord)
  {
    Filled(e.email) && Filled(e.fullName) && Filled(e.jobTitle)
  }

  /** `processed[field] = employee.get(field)`: a missing key becomes `None`. */
  function OrNone<T>(f: Field<T>): (g: Field<T>)
    ensures g != Absent
    ensures f != Absent ==> g == f
  {
    if f.Absent? then Null else f
  }

  /** The copy of a valid record that is stored: the six list fields are set to
      the given value or `None`, and `user_id` to the caller's id. */
  function Prepare(e: EmployeeRecord, userId: int): (p: EmployeeRecord)
    ensures p.userId == Present(userId)
    ensures p.skills != Absent && p.experiences != Absent && p.educations != Absent
    ensures p.publications != Absent && p.distinctions != Absent && p.certifications != Absent
    ensures p.(skills := e.skills, experiences := e.experiences, educations := e.educations,
               publications := e.publications, distinctions := e.distinctions,
               certifications := e.certifications, userId := e.userId) == e
  {
    e.(skills := OrNone(e.skills), experiences := OrNone(e.experiences), educations := OrNone(e.educations),
       publications := OrNone(e.publications), distinctions := OrNone(e.distinctions),
       certifications := OrNone(e.certifications), userId := Present(userId))
  }

  /** `validation_results` after the validation loop has seen `emps`. */
  function Failures(emps: seq<EmployeeRecord>): Results
  {
    if emps == [] then []
    else
      var i := |emps| - 1;
      var prev := Failures(emps[..i]);
      if IsValid(emps[i]) then prev else Put(prev, EmailKey(emps[i], i), Failed(MissingFields))
  }

  /** `employees_to_process` after the validation loop has seen `emps`. */
  function Processed(emps: seq<EmployeeRecord>, userId: int): seq<EmployeeRecord>
  {
    if emps == [] then []
    else
      var i := |emps| - 1;
      Processed(emps[..i], userId) + (if IsValid(emps[i]) then [Prepare(emps[i], userId)] else [])
  }

  /** The email of a record that passed validation (it always has one). */
  function EmailOf(e: EmployeeRecord): string
  {
    if e.email.Present? then e.email.value else ""
  }

  /** `[emp for emp in employees_to_process if emp.get('email') not in validation_results]` */
  function Unfailed(ps: seq<EmployeeRecord>, failures: Results): (r: seq<EmployeeRecord>)
    ensures forall e :: e in r <==> e in ps && Email(EmailOf(e)) !in Keys(failures)
  {
    if ps == [] then []
    else (if Email(EmailOf(ps[0])) !in Keys(failures) then [ps[0]] else []) + Unfailed(ps[1..], failures)
  }


  // ---------------------------------------------------------------------------
  // The employees table and the MERGE

  /** A row of the `employees` table: the identity `id`, the `email`, the other
      columns the MERGE writes (kept as the record they were written from), the
      resignation columns, and `updated_at` (`None` until a statement sets it). */
  datatype EmployeeRow = EmployeeRow(id: int, email: string, data: EmployeeRecord, resignStatus: bool,
                                     resignDate: Option<int>, updatedAt: Option<int>)

  /** `ON target.id = source.id OR target.email = source.email`: a `NULL` source id
      compares unknown, so a record without an id matches by email only. */
  predicate Matches(t: EmployeeRow, s: EmployeeRecord)
  {
    (s.id.Present? && t.id == s.id.value) || t.email == EmailOf(s)
  }

  /** `WHEN MATCHED AND source.id IS NOT NULL`: record `s` may update row `t`. */
  predicate Updates(t: EmployeeRow, s: EmployeeRecord)
  {
    s.id.Present? && Matches(t, s)
  }

  /** The record that updates row `t`: the first valid record that may. */
  function Updater(t: EmployeeRow, valid: seq<EmployeeRecord>): (r: Option<EmployeeRecord>)
    ensures r.None? <==> forall i :: 0 <= i < |valid| ==> !Updates(t, valid[i])
    ensures r.Some? ==> exists i :: 0 <= i < |valid| && valid[i] == r.value && Updates(t, r.value)
                                   && forall j :: 0 <= j < i ==> !Updates(t, valid[j])
  {
    if valid == [] then None
    else if Updates(t, valid[0]) then Some(valid[0])
    else
      var r := Updater(t, valid[1..]);
      assert forall j :: 1 <= j < |valid| ==> valid[j] == valid[1..][j - 1];
      if r.Some? then
        var i :| 0 <= i < |valid[1..]| && valid[1..][i] == r.value && Updates(t, r.value)
                 && forall j :: 0 <= j < i ==> !Updates(t, valid[1..][j]);
        assert valid[i + 1] == r.value;
        r
      else r
  }

  /** Row `t` after the MERGE: given the email and columns of its updating record,
      with `updated_at = CURRENT_TIMESTAMP()`, or untouched when no record may
      update it. */
  function MergedRow(t: EmployeeRow, valid: seq<EmployeeRecord>, now: int): EmployeeRow
  {
    match Updater(t, valid)
    case None => t
    case Some(s) => t.(email := EmailOf(s), data := s, updatedAt := Some(now))
  }

  /** No row of `table` matches record `s`, so `WHEN NOT MATCHED` inserts it. */
  predicate Unclaimed(table: seq<EmployeeRow>, s: EmployeeRecord)
  {
    forall i :: 0 <= i < |table| ==> !Matches(table[i], s)
  }

  /** The valid records the MERGE inserts, in source order. */
  function Unmatched(table: seq<EmployeeRow>, valid: seq<EmployeeRecord>): (r: seq<EmployeeRecord>)
    ensures |r| <= |valid|
    ensures forall s :: s in r <==> s in valid && Unclaimed(table, s)
  {
    if valid == [] then []
    else (if Unclaimed(table, valid[0]) then [valid[0]] else []) + Unmatched(table, valid[1..])
  }

  /** The rows inserted for `news`: identity ids counting up from `nextId`, the
      record's columns, not resigned, no dates set. */
  function NewRows(news: seq<EmployeeRecord>, nextId: int): seq<EmployeeRow>
  {
    seq(|news|, i requires 0 <= i < |news| => EmployeeRow(nextId + i, EmailOf(news[i]), news[i], false, None, None))
  }

  /** The employees table after `MERGE INTO employees … USING (…valid records…)`
      at time `now`: the existing rows, each merged, then the inserted rows. */
  function Merge(table: seq<EmployeeRow>, valid: seq<EmployeeRecord>, nextId: int, now: int): seq<EmployeeRow>
  {
    seq(|table|, i requires 0 <= i < |table| => MergedRow(table[i], valid, now))
    + NewRows(Unmatched(table, valid), nextId)
  }

  /** The ids of a table's rows. */
  function Ids(table: seq<EmployeeRow>): set<int>
  {
    set t | t in table :: t.id
  }

  /** The `(id, email)` pairs of a table's rows, in table order. */
  function Pairs(table: seq<EmployeeRow>): (r: seq<(int, string)>)
    ensures |r| == |table|
    ensures forall i :: 0 <= i < |table| ==> r[i] == (table[i].id, table[i].email)
  {
    seq(|table|, i requires 0 <= i < |table| => (table[i].id, table[i].email))
  }

  // ---------------------------------------------------------------------------
  // The database stage

  /** The rows `SELECT id, email FROM employees WHERE email IN (…valid emails…)`
      returns from the `(id, email)` pairs of the employees table, in table order. */
  function Selected(table: seq<(int, string)>, valid: seq<EmployeeRecord>): (rows: seq<(int, string)>)
    ensures forall r :: r in rows <==> r in table && exists e :: e in valid && EmailOf(e) == r.1
  {
    if table == [] then []
    else
      (if exists e :: e in valid && EmailOf(e) == table[0].1 then [table[0]] else [])
      + Selected(table[1..], valid)
  }

  /** `results_map` after the loop over the fetched rows: each row records
      `success (inserted)`, or `success (updated)` when its email already had an entry. */
  function Recorded(m: Results, rows: seq<(int, string)>): Results
  {
    if rows == [] then m
    else
      var n := |rows| - 1;
      var prev := Recorded(m, rows[..n]);
      var key := Email(rows[n].1);
      Put(prev, key, Succeeded(rows[n].0, if key in Keys(prev) then Updated else Inserted))
  }

  /** The ids collected in `affected_employee_ids`. */
  function Affected(rows: seq<(int, string)>): (ids: set<int>)
    ensures forall id :: id in ids <==> exists i :: 0 <= i < |rows| && rows[i].0 == id
  {
    if rows == [] then {}
    else
      var n := |rows| - 1;
      var prev := Affected(rows[..n]);
      assert forall i :: 0 <= i < n ==> rows[..n][i] == rows[i];
      prev + {rows[n].0}
  }

  /** `next((id for id, e in merge_results if e == email), None)`: the id of the
      first fetched row with that email. */
  function FirstId(rows: seq<(int, string)>, email: string): (r: Option<int>)
    ensures r.None? <==> forall i :: 0 <= i < |rows| ==> rows[i].1 != email
    ensures r.Some? ==> exists i :: 0 <= i < |rows| && rows[i] == (r.value, email)
                                   && forall j :: 0 <= j < i ==> rows[j].1 != email
  {
    if rows == [] then None
    else if rows[0].1 == email then Some(rows[0].0)
    else
      var r := FirstId(rows[1..], email);
      assert forall j :: 1 <= j < |rows| ==> rows[j] == rows[1..][j - 1];
      if r.Some? then
        var i :| 0 <= i < |rows[1..]| && rows[1..][i] == (r.value, email)
                 && forall j :: 0 <= j < i ==> rows[1..][j].1 != email;
        assert rows[i + 1] == (r.value, email);
        r
      else r
  }

  /** The chunks compiled for one valid record: none when its email has no row or
      its id is falsy (`if not employee_id`), else `compile_to_chunk` of the record
      with `file_data` set to `None`. */
  function ChunksFor(e: EmployeeRecord, rows: seq<(int, string)>, userId: int): seq<Chunk>
  {
    var id := FirstId(rows, EmailOf(e));
    if id.None? || id.value == 0 then [] else Compile(e.(fileData := Null), id.value, userId)
  }

  /** `list_of_content_chunks` after the loop over the valid records. */
  function Rebuilt(valid: seq<EmployeeRecord>, rows: seq<(int, string)>, userId: int): seq<Chunk>
  {
    if valid == [] then []
    else
      var n := |valid| - 1;
      Rebuilt(valid[..n], rows, userId) + ChunksFor(valid[n], rows, userId)
  }

  /** `DELETE FROM Content_Chunks WHERE employee_id IN (…)` */
  function WithoutEmployees(cs: seq<Chunk>, ids: set<int>): (r: seq<Chunk>)
    ensures forall c :: c in r <==> c in cs && c.employeeId !in ids
  {
    if cs == [] then []
    else (if cs[0].employeeId in ids then [] else [cs[0]]) + WithoutEmployees(cs[1..], ids)
  }

  /** Deleting for an empty id list deletes nothing (the source skips the statement). */
  lemma {:induction false} WithoutNobody(cs: seq<Chunk>)
    ensures WithoutEmployees(cs, {}) == cs
  {
    if cs != [] {
      WithoutNobody(cs[1..]);
    }
  }

  /** The chunk table once the affected employees' rows are deleted and the
      freshly compiled ones appended. */
  function Refreshed(chunks: seq<Chunk>, valid: seq<EmployeeRecord>, rows: seq<(int, string)>, userId: int)
    : seq<Chunk>
  {
    WithoutEmployees(chunks, Affected(rows)) + Rebuilt(valid, rows, userId)
  }

  /** The 201 result list: `{"email": e, **results_map[e]}` for each valid record
      whose email has an entry, in input order. */
  function Reported(valid: seq<EmployeeRecord>, m: Results): Results
  {
    if valid == [] then []
    else
      var key := Email(EmailOf(valid[0]));
      var entry := Get(m, key);
      (if entry.Some? then [(key, entry.value)] else []) + Reported(valid[1..], m)
  }

  /** `results_map` after the error handler's loop: each valid record without an
      entry is marked failed with the error message; existing entries stay. */
  function ErrorMarked(valid: seq<EmployeeRecord>, m: Results, msg: string): Results
  {
    if valid == [] then m
    else
      var n := |valid| - 1;
      var prev := ErrorMarked(valid[..n], m, msg);
      var key := Email(EmailOf(valid[n]));
      if key in Keys(prev) then prev else Put(prev, key, Failed(msg))
  }

  /** The exception raised in the database stage. */
  datatype DbError = SnowflakeError(errno: int, sqlState: string, msg: string) | OtherError(text: string)

  function ErrorMessage(err: DbError): string
  {
    match err
    case SnowflakeError(errno, sqlState, msg) =>
      "Snowflake DB Error: " + IntToString(errno) + " (" + sqlState + "): " + msg
    case OtherError(text) => "An unexpected error occurred: " + text
  }

  /** The statements of the database stage, in the order the handler runs them:
      opening the connection, the MERGE, the SELECT of the merged rows, the DELETE
      of the affected employees' chunks, the INSERT of the new chunks, the commit. */
  datatype Step = Connect | MergeInto | FetchRows | DeleteChunks | InsertChunks | Commit

  /** Which statement raises, if any, when it runs. */
  datatype Outcome = Completes | Fails(at: Step, error: DbError)

  /** What a run of the handler depends on besides the request and the tables: the
      caller (`g.user_id`), the next value of the `id` identity column, the
      warehouse clock, whether the connection commits every statement on its own
      (the connector's default), and which statement raises. */
  datatype Run = Run(userId: int, nextId: int, now: int, autocommit: bool, outcome: Outcome)

  /** The employees table and the content-chunk table. */
  datatype Tables = Tables(employees: seq<EmployeeRow>, chunks: seq<Chunk>)

  /** The rows the SELECT fetches once the MERGE has run on `table`. */
  function Fetched(table: seq<EmployeeRow>, valid: seq<EmployeeRecord>, run: Run): seq<(int, string)>
  {
    Selected(Pairs(Merge(table, valid, run.nextId, run.now)), valid)
  }

  /** How the stage ends: as the run says, except that a failing DELETE or chunk
      INSERT that the handler skips (no affected ids, no chunks to insert) never runs. */
  function Ending(table: seq<EmployeeRow>, valid: seq<EmployeeRecord>, run: Run): Outcome
  {
    EndingOn(Fetched(table, valid, run), valid, run)
  }

  /** How the stage ends once the SELECT has fetched `rows`. */
  function EndingOn(rows: seq<(int, string)>, valid: seq<EmployeeRecord>, run: Run): Outcome
  {
    match run.outcome
    case Fails(DeleteChunks, _) => if Affected(rows) == {} then Completes else run.outcome
    case Fails(InsertChunks, _) => if Rebuilt(valid, rows, run.userId) == [] then Completes else run.outcome
    case _ => run.outcome
  }

  /** A failure at `at` comes before the rows loop has filled `results_map`. */
  predicate BeforeResults(at: Step)
  {
    at == Connect || at == MergeInto || at == FetchRows
  }

  datatype BulkResponse =
    | NoEmployees
    | NoValidEmployees(failures: Results)
    | Completed(results: Results)
    | DbFailure(error: string, items: Results)
  {
    function Status(): int
    {
      if Completed? then 201 else 400
    }
  }

  /** The response of the database stage for the valid records. */
  function DbStage(table: seq<EmployeeRow>, valid: seq<EmployeeRecord>, failures: Results, run: Run): BulkResponse
  {
    StageOn(Fetched(table, valid, run), valid, failures, run)
  }

  /** The response of the database stage once the SELECT has fetched `rows`. */
  function StageOn(rows: seq<(int, string)>, valid: seq<EmployeeRecord>, failures: Results, run: Run): BulkResponse
  {
    match EndingOn(rows, valid, run)
    case Completes => Completed(Reported(valid, Recorded(failures, rows)))
    case Fails(at, err) =>
      var m := if BeforeResults(at) then failures else Recorded(failures, rows);
      DbFailure(ErrorMessage(err), ErrorMarked(valid, m, ErrorMessage(err)))
  }

  /** Both tables after the database stage. On a failure, `conn.rollback()`
      undoes every statement that ran when statements are not committed on their
      own; under autocommit every statement that ran has been kept. */
  function DbTables(t: Tables, valid: seq<EmployeeRecord>, run: Run): Tables
  {
    TablesOn(t, Merge(t.employees, valid, run.nextId, run.now), Fetched(t.employees, valid, run), valid, run)
  }

  /** Both tables after the database stage, given the MERGE's result `merged` and
      the rows the SELECT fetches from it. */
  function TablesOn(t: Tables, merged: seq<EmployeeRow>, rows: seq<(int, string)>, valid: seq<EmployeeRecord>,
                    run: Run): Tables
  {
    match EndingOn(rows, valid, run)
    case Completes => Tables(merged, Refreshed(t.chunks, valid, rows, run.userId))
    case Fails(at, _) =>
      if !run.autocommit || at == Connect || at == MergeInto then t
      else if at == InsertChunks then Tables(merged, WithoutEmployees(t.chunks, Affected(rows)))
      else if at == Commit then Tables(merged, Refreshed(t.chunks, valid, rows, run.userId))
      else Tables(merged, t.chunks)
  }

  /** The valid records of a request: the prepared copies whose email is not the
      key of a validation failure. */
  function ValidOf(emps: seq<EmployeeRecord>, userId: int): seq<EmployeeRecord>
  {
    Unfailed(Processed(emps, userId), Failures(emps))
  }

  /** The response of `create_employee` for a request body whose `employees` key is
      `body`, against the employees table `table`. */
  function BulkCreate(body: Field<seq<EmployeeRecord>>, table: seq<EmployeeRow>, run: Run): BulkResponse
  {
    if !body.Present? || body.value == [] then NoEmployees
    else
      var valid := ValidOf(body.value, run.userId);
      if valid == [] then NoValidEmployees(Failures(body.value))
      else DbStage(table, valid, Failures(body.value), run)
  }

  /** Both tables after `create_employee`. */
  function TablesAfter(t: Tables, body: Field<seq<EmployeeRecord>>, run: Run): Tables
  {
    if !body.Present? || body.value == [] then t
    else
      var valid := ValidOf(body.value, run.userId);
      if valid == [] then t
      else DbTables(t, valid, run)
  }

  // ---------------------------------------------------------------------------
  // Resign

  /** `UPDATE employees SET resign_status = TRUE, resign_date = now, updated_at = now WHERE id = …` */
  function MarkResigned(rows: seq<EmployeeRow>, id: int, now: int): (r: seq<EmployeeRow>)
    ensures |r| == |rows|
    ensures forall i :: 0 <= i < |rows| && rows[i].id != id ==> r[i] == rows[i]
    ensures forall i :: 0 <= i < |rows| && rows[i].id == id
                        ==> r[i] == rows[i].(resignStatus := true, resignDate := Some(now), updatedAt := Some(now))
  {
    seq(|rows|, i requires 0 <= i < |rows| =>
      if rows[i].id == id then rows[i].(resignStatus := true, resignDate := Some(now), updatedAt := Some(now))
      else rows[i])
  }

  /** `cursor.rowcount` of that UPDATE: the number of rows with the given id. */
  function RowCount(rows: seq<EmployeeRow>, id: int): (n: nat)
    ensures n <= |rows|
    ensures n == 0 <==> forall i :: 0 <= i < |rows| ==> rows[i].id != id
  {
    if rows == [] then 0
    else (if rows[0].id == id then 1 else 0) + RowCount(rows[1..], id)
  }

  /** The rows of the chunk table that belong to one employee, in table order. */
  function OfEmployee(cs: seq<Chunk>, id: int): (r: seq<Chunk>)
    ensures forall c :: c in r <==> c in cs && c.employeeId == id
  {
    if cs == [] then []
    else (if cs[0].employeeId == id then [cs[0]] else []) + OfEmployee(cs[1..], id)
  }

  datatype ResignResponse = Resigned | EmployeeNotFound
  {
    function Status(): int
    {
      if Resigned? then 200 else 404
    }

    function Message(): string
    {
      if Resigned? then "Employee resigned and content chunks removed" else "Employee not found"
    }
  }

  // ---------------------------------------------------------------------------
  // The two tables and the route handlers

  class Warehouse {
    /** The `employees` table. */
    var employees: seq<EmployeeRow>
    /** The `Content_Chunks` table. */
    var chunks: seq<Chunk>

    constructor (employees: seq<EmployeeRow>, chunks: seq<Chunk>)
      ensures this.employees == employees && this.chunks == chunks
    {
      this.employees := employees;
      this.chunks := chunks;
    }

    /** `POST /api/employees` as the handler runs it. */
    method CreateEmployees(body: Field<seq<EmployeeRecord>>, run: Run) returns (response: BulkResponse)
      modifies this
      ensures response == BulkCreate(body, old(employees), run)
      ensures Tables(employees, chunks) == TablesAfter(Tables(old(employees), old(chunks)), body, run)
    {
      if !body.Present? || body.value == [] {
        return NoEmployees;
      }
      var emps := body.value;
      var failures, toProcess := Validate(emps, run.userId);
      var valid := Unfailed(toProcess, failures);
      if valid == [] {
        return NoValidEmployees(failures);
      }
      response := RunDbStage(valid, failures, run);
    }

    /** The `try` block that talks to the warehouse, with its two error handlers. */
    method RunDbStage(valid: seq<EmployeeRecord>, failures: Results, run: Run) returns (response: BulkResponse)
      modifies this
      ensures response == DbStage(old(employees), valid, failures, run)
      ensures Tables(employees, chunks) == DbTables(Tables(old(employees), old(chunks)), valid, run)
    {
      var outcome := run.outcome;
      if outcome.Fails? && (outcome.at == Connect || outcome.at == MergeInto) {
        response := ReportFailure(valid, failures, ErrorMessage(outcome.error));
        return;
      }
      var before := Tables(employees, chunks);
      employees := Merge(employees, valid, run.nextId, run.now);
      if outcome.Fails? && outcome.at == FetchRows {
        Rollback(before, run.autocommit);
        response := ReportFailure(valid, failures, ErrorMessage(outcome.error));
        return;
      }
      response := AfterMerge(before, valid, failures, run);
    }

    /** The rest of the `try` block once the MERGE has run: the SELECT, the rows
        loop and the DELETE, then the chunk INSERT and the commit. */
    method AfterMerge(before: Tables, valid: seq<EmployeeRecord>, failures: Results, run: Run)
      returns (response: BulkResponse)
      requires employees == Merge(before.employees, valid, run.nextId, run.now) && chunks == before.chunks
      requires !(run.outcome.Fails? && (run.outcome.at == Connect || run.outcome.at == MergeInto
                                        || run.outcome.at == FetchRows))
      modifies this
      ensures response == DbStage(before.employees, valid, failures, run)
      ensures Tables(employees, chunks) == DbTables(before, valid, run)
    {
      var outcome := run.outcome;
      var rows := Selected(Pairs(employees), valid);
      assert rows == Fetched(before.employees, valid, run);
      var m, affected := RecordRows(failures, rows);
      if affected != {} && outcome.Fails? && outcome.at == DeleteChunks {
        DeleteFailure(before, employees, rows, valid, failures, run);
        Rollback(before, run.autocommit);
        response := ReportFailure(valid, m, ErrorMessage(outcome.error));
        return;
      }
      if affected != {} {
        chunks := WithoutEmployees(chunks, affected);
      } else {
        WithoutNobody(chunks);
      }
      response := InsertChunksAndCommit(before, valid, failures, run, rows, m);
    }

    /** The chunk INSERT and the commit, once the affected employees' chunks are
        deleted. */
    method InsertChunksAndCommit(before: Tables, valid: seq<EmployeeRecord>, failures: Results, run: Run,
                                 rows: seq<(int, string)>, m: Results)
      returns (response: BulkResponse)
      requires rows == Fetched(before.employees, valid, run) && m == Recorded(failures, rows)
      requires employees == Merge(before.employees, valid, run.nextId, run.now)
      requires chunks == WithoutEmployees(before.chunks, Affected(rows))
      requires !(run.outcome.Fails? && (run.outcome.at == Connect || run.outcome.at == MergeInto
                                        || run.outcome.at == FetchRows))
      requires !(run.outcome.Fails? && run.outcome.at == DeleteChunks && Affected(rows) != {})
      modifies this
      ensures response == DbStage(before.employees, valid, failures, run)
      ensures Tables(employees, chunks) == DbTables(before, valid, run)
    {
      var outcome := run.outcome;
      var newChunks := RebuildChunks(valid, rows, run.userId);
      if newChunks != [] && outcome.Fails? && outcome.at == InsertChunks {
        InsertFailure(before, employees, rows, valid, failures, run);
        Rollback(before, run.autocommit);
        response := ReportFailure(valid, m, ErrorMessage(outcome.error));
        return;
      }
      chunks := chunks + newChunks;
      if outcome.Fails? && outcome.at == Commit {
        CommitFailure(before, employees, rows, valid, failures, run);
        Rollback(before, run.autocommit);
        response := ReportFailure(valid, m, ErrorMessage(outcome.error));
        return;
      }
      assert EndingOn(rows, valid, run) == Completes;
      response := Completed(Reported(valid, m));
    }

    /** `conn.rollback()`: restores the tables as they were when the stage began,
        unless every statement has already been committed on its own. */
    method Rollback(before: Tables, autocommit: bool)
      modifies this
      ensures autocommit ==> employees == old(employees) && chunks == old(chunks)
      ensures !autocommit ==> employees == before.employees && chunks == before.chunks
    {
      if !autocommit {
        employees := before.employees;
        chunks := before.chunks;
      }
    }

    /** `PATCH /api/employees/<id>/resign` at time `now`. */
    method Resign(id: int, now: int) returns (response: ResignResponse)
      modifies this
      ensures (exists i :: 0 <= i < |old(employees)| && old(employees)[i].id == id) <==> response == Resigned
      ensures response == EmployeeNotFound ==> employees == old(employees) && chunks == old(chunks)
      ensures response == Resigned ==>
                (employees == MarkResigned(old(employees), id, now) && chunks == WithoutEmployees(old(chunks), {id}))
    {
      var updated := MarkResigned(employees, id, now);
      if RowCount(employees, id) == 0 {
        return EmployeeNotFound;
      }
      employees := updated;
      chunks := WithoutEmployees(chunks, {id});
      return Resigned;
    }
  }

  /** The validation loop: builds `validation_results` and `employees_to_process`. */
  method Validate(emps: seq<EmployeeRecord>, userId: int) returns (failures: Results, toProcess: seq<EmployeeRecord>)
    ensures failures == Failures(emps)
    ensures toProcess == Processed(emps, userId)
  {
    failures := [];
    toProcess := [];
    for i := 0 to |emps|
      invariant failures == Failures(emps[..i])
      invariant toProcess == Processed(emps[..i], userId)
    {
      assert emps[..i + 1][..i] == emps[..i];
      if !IsValid(emps[i]) {
        failures := Put(failures, EmailKey(emps[i], i), Failed(MissingFields));
      } else {
        toProcess := toProcess + [Prepare(emps[i], userId)];
      }
    }
    assert emps[..|emps|] == emps;
  }

  /** A DELETE that raises with affected ids: the failure entries keep the rows
      loop's results; under autocommit the MERGE stays while the chunks are
      untouched, otherwise both tables are as before. */
  lemma DeleteFailure(t: Tables, merged: seq<EmployeeRow>, rows: seq<(int, string)>, valid: seq<EmployeeRecord>,
                      failures: Results, run: Run)
    requires run.outcome.Fails? && run.outcome.at == DeleteChunks && Affected(rows) != {}
    ensures var msg := ErrorMessage(run.outcome.error);
      StageOn(rows, valid, failures, run) == DbFailure(msg, ErrorMarked(valid, Recorded(failures, rows), msg))
    ensures TablesOn(t, merged, rows, valid, run) == if run.autocommit then Tables(merged, t.chunks) else t
  {
    assert EndingOn(rows, valid, run) == run.outcome;
  }

  /** The loop over the fetched `(id, email)` rows: fills `results_map` and
      collects `affected_employee_ids`. */
  method RecordRows(failures: Results, rows: seq<(int, string)>) returns (m: Results, affected: set<int>)
    ensures m == Recorded(failures, rows)
    ensures affected == Affected(rows)
  {
    m := failures;
    affected := {};
    for k := 0 to |rows|
      invariant m == Recorded(failures, rows[..k])
      invariant affected == Affected(rows[..k])
    {
      assert rows[..k + 1][..k] == rows[..k];
      var key := Email(rows[k].1);
      var action := if key in Keys(m) then Updated else Inserted;
      m := Put(m, key, Succeeded(rows[k].0, action));
      affected := affected + {rows[k].0};
    }
    assert rows[..|rows|] == rows;
  }

  /** The loop that compiles the chunks of every valid record that has an id. */
  method RebuildChunks(valid: seq<EmployeeRecord>, rows: seq<(int, string)>, userId: int)
    returns (newChunks: seq<Chunk>)
    ensures newChunks == Rebuilt(valid, rows, userId)
  {
    newChunks := [];
    for j := 0 to |valid|
      invariant newChunks == Rebuilt(valid[..j], rows, userId)
    {
      assert valid[..j + 1][..j] == valid[..j];
      var e := valid[j].(fileData := Null);
      var id := FirstId(rows, EmailOf(valid[j]));
      if id.Some? && id.value != 0 {
        var compiled := CompileToChunk(e, id.value, userId);
        newChunks := newChunks + compiled;
      }
    }
    assert valid[..|valid|] == valid;
  }

  /** The error handler: mark the valid records without an entry and list every
      item of the results dictionary. */
  method ReportFailure(valid: seq<EmployeeRecord>, m: Results, msg: string) returns (response: BulkResponse)
    ensures response == DbFailure(msg, ErrorMarked(valid, m, msg))
  {
    var marked := m;
    for j := 0 to |valid|
      invariant marked == ErrorMarked(valid[..j], m, msg)
    {
      assert valid[..j + 1][..j] == valid[..j];
      var key := Email(EmailOf(valid[j]));
      if key !in Keys(marked) {
        marked := Put(marked, key, Failed(msg));
      }
    }
    assert valid[..|valid|] == valid;
    return DbFailure(msg, marked);
  }

  // ---------------------------------------------------------------------------
  // Properties

  /** Record `i` of `emps` failed validation and is keyed by `k`. */
  predicate FailedAt(emps: seq<EmployeeRecord>, i: int, k: Key)
  {
    0 <= i < |emps| && !IsValid(emps[i]) && EmailKey(emps[i], i) == k
  }

  /** A key fails in `emps` iff it failed in all records but the last, or the last
      record fails under it. */
  lemma {:induction false} FailedAtSnoc(emps: seq<EmployeeRecord>, prefix: seq<EmployeeRecord>, k: Key)
    requires emps != [] && prefix == emps[..|emps| - 1]
    ensures (exists i :: FailedAt(emps, i, k))
        <==> (exists i :: FailedAt(prefix, i, k)) || FailedAt(emps, |emps| - 1, k)
  {
    var n := |emps| - 1;
    if exists i :: FailedAt(emps, i, k) {
      var i :| FailedAt(emps, i, k);
      if i < n {
        assert FailedAt(prefix, i, k);
      }
    }
    if exists i :: FailedAt(prefix, i, k) {
      var i :| FailedAt(prefix, i, k);
      assert FailedAt(emps, i, k);
    }
  }

  /** `validation_results` has a key exactly for the records that fail validation
      (their email, or `unknown_<i>` when the email is missing), and every value is
      the missing-fields failure. */
  lemma {:induction false} FailuresMatchInvalid(emps: seq<EmployeeRecord>)
    ensures forall k :: k in Keys(Failures(emps)) <==> exists i :: FailedAt(emps, i, k)
    ensures forall k :: Get(Failures(emps), k).Some? ==> Get(Failures(emps), k) == Some(Failed(MissingFields))
  {
    if emps != [] {
      var n := |emps| - 1;
      var prefix := emps[..n];
      FailuresMatchInvalid(prefix);
      forall k
        ensures k in Keys(Failures(emps)) <==> exists i :: FailedAt(emps, i, k)
      {
        FailedAtSnoc(emps, prefix, k);
      }
    }
  }

  /** `employees_to_process` holds exactly the prepared copies of the records that
      pass validation. */
  lemma {:induction false} ProcessedCopies(emps: seq<EmployeeRecord>, userId: int)
    ensures forall p :: p in Processed(emps, userId)
                   <==> exists i :: 0 <= i < |emps| && IsValid(emps[i]) && p == Prepare(emps[i], userId)
  {
    ProcessedSound(emps, userId);
    ProcessedComplete(emps, userId);
  }

  /** Each processed record is the prepared copy of a valid record. */
  lemma {:induction false} ProcessedSound(emps: seq<EmployeeRecord>, userId: int)
    ensures forall p :: p in Processed(emps, userId)
                   ==> exists i :: 0 <= i < |emps| && IsValid(emps[i]) && p == Prepare(emps[i], userId)
  {
    if emps != [] {
      var n := |emps| - 1;
      var prev := Processed(emps[..n], userId);
      var last := if IsValid(emps[n]) then [Prepare(emps[n], userId)] else [];
      assert Processed(emps, userId) == prev + last;
      ProcessedSound(emps[..n], userId);
      forall p | p in prev + last
        ensures exists i :: 0 <= i < |emps| && IsValid(emps[i]) && p == Prepare(emps[i], userId)
      {
        if p in prev {
          var i :| 0 <= i < n && IsValid(emps[..n][i]) && p == Prepare(emps[..n][i], userId);
          assert emps[..n][i] == emps[i];
        } else {
          assert IsValid(emps[n]) && p == Prepare(emps[n], userId);
        }
      }
    }
  }

  /** The prepared copy of every valid record is processed. */
  lemma {:induction false} ProcessedComplete(emps: seq<EmployeeRecord>, userId: int)
    ensures forall i :: 0 <= i < |emps| && IsValid(emps[i]) ==> Prepare(emps[i], userId) in Processed(emps, userId)
  {
    if emps != [] {
      var n := |emps| - 1;
      var prev := Processed(emps[..n], userId);
      var last := if IsValid(emps[n]) then [Prepare(emps[n], userId)] else [];
      assert Processed(emps, userId) == prev + last;
      ProcessedComplete(emps[..n], userId);
      forall i | 0 <= i < |emps| && IsValid(emps[i])
        ensures Prepare(emps[i], userId) in prev + last
      {
        if i < n {
          assert emps[..n][i] == emps[i];
        }
      }
    }
  }

  /** The records sent to the warehouse are the prepared copies of the valid
      records, minus those whose email is the key of a failed record. */
  lemma {:induction false} ValidRecords(emps: seq<EmployeeRecord>, userId: int)
    ensures forall p :: p in ValidOf(emps, userId)
                   <==> (exists i :: 0 <= i < |emps| && IsValid(emps[i]) && p == Prepare(emps[i], userId))
                        && Email(EmailOf(p)) !in Keys(Failures(emps))
  {
    ProcessedCopies(emps, userId);
  }

  /** When no record survives validation the response is 400 and lists the
      validation failures, one key per failed record, and neither table changes. */
  lemma {:induction false} NoValidRecords(emps: seq<EmployeeRecord>, t: Tables, run: Run)
    requires emps != [] && ValidOf(emps, run.userId) == []
    ensures BulkCreate(Present(emps), t.employees, run) == NoValidEmployees(Failures(emps))
    ensures BulkCreate(Present(emps), t.employees, run).Status() == 400
    ensures forall k :: k in Keys(Failures(emps)) <==> exists i :: FailedAt(emps, i, k)
    ensures TablesAfter(t, Present(emps), run) == t
  {
    FailuresMatchInvalid(emps);
  }

  /** A request in which every record fails validation has no valid records. */
  lemma {:induction false} AllInvalid(emps: seq<EmployeeRecord>, userId: int)
    requires forall i :: 0 <= i < |emps| ==> !IsValid(emps[i])
    ensures ValidOf(emps, userId) == []
  {
    NoneProcessed(emps, userId);
  }

  lemma {:induction false} NoneProcessed(emps: seq<EmployeeRecord>, userId: int)
    requires forall i :: 0 <= i < |emps| ==> !IsValid(emps[i])
    ensures Processed(emps, userId) == []
  {
    if emps != [] {
      var n := |emps| - 1;
      assert forall i :: 0 <= i < n ==> emps[..n][i] == emps[i];
      NoneProcessed(emps[..n], userId);
    }
  }

  /** The status code: 201 exactly when there are records, some record survives
      validation and the database stage ends without an exception; 400 otherwise.
      A run in which no statement raises always ends with 201 when a record is valid. */
  lemma {:induction false} StatusCode(body: Field<seq<EmployeeRecord>>, table: seq<EmployeeRow>, run: Run)
    ensures BulkCreate(body, table, run).Status() == 201
        <==> (body.Present? && body.value != [] && ValidOf(body.value, run.userId) != []
              && Ending(table, ValidOf(body.value, run.userId), run).Completes?)
    ensures BulkCreate(body, table, run).Status() in {201, 400}
    ensures (run.outcome.Completes? && body.Present? && ValidOf(body.value, run.userId) != []
             ==> BulkCreate(body, table, run).Status() == 201)
  {
  }

  /** The stored copy compiles to the same chunks as the record as posted:
      preparing it and clearing `file_data` change nothing the compiler reads. */
  lemma {:induction false} PreparedCompilesAlike(e: EmployeeRecord, userId: int, employeeId: int, chunkUser: int)
    ensures Compile(Prepare(e, userId).(fileData := Null), employeeId, chunkUser) == Compile(e, employeeId, chunkUser)
  {
    var p := Prepare(e, userId).(fileData := Null);
    CompileReadsOnly(p, e, employeeId, chunkUser);
  }

  /** Some fetched row carries the email of key `k`. */
  ghost predicate RowFor(rows: seq<(int, string)>, k: Key)
  {
    exists i :: 0 <= i < |rows| && Email(rows[i].1) == k
  }

  lemma RowForSnoc(rows: seq<(int, string)>, k: Key)
    requires rows != []
    ensures RowFor(rows, k) <==> RowFor(rows[..|rows| - 1], k) || Email(rows[|rows| - 1].1) == k
  {
    var n := |rows| - 1;
    if RowFor(rows, k) && Email(rows[n].1) != k {
      var i :| 0 <= i < |rows| && Email(rows[i].1) == k;
      assert rows[..n][i] == rows[i];
    }
    if RowFor(rows[..n], k) {
      var i :| 0 <= i < n && Email(rows[..n][i].1) == k;
      assert rows[..n][i] == rows[i];
    }
  }

  /** Keys of the results dictionary after the rows loop: the earlier keys and the
      emails of the rows. */
  lemma {:induction false} RecordedKeys(m: Results, rows: seq<(int, string)>)
    ensures forall k :: k in Keys(Recorded(m, rows)) <==> k in Keys(m) || RowFor(rows, k)
  {
    if rows != [] {
      var n := |rows| - 1;
      RecordedKeys(m, rows[..n]);
      forall k
        ensures k in Keys(Recorded(m, rows)) <==> k in Keys(m) || RowFor(rows, k)
      {
        RowForSnoc(rows, k);
      }
    }
  }

  /** A key the results dictionary did not hold before the rows loop holds a
      success entry after it, if any. */
  lemma {:induction false} RecordedSucceeded(m: Results, rows: seq<(int, string)>)
    ensures forall k :: k !in Keys(m) && Get(Recorded(m, rows), k).Some?
                   ==> Get(Recorded(m, rows), k).value.Succeeded?
  {
    if rows != [] {
      RecordedSucceeded(m, rows[..|rows| - 1]);
    }
  }

  /** `success (updated)` is reported for an email that was not a failure key only
      when the fetched rows hold that email twice: the action is decided by the
      results dictionary, not by what the MERGE did. */
  lemma {:induction false} UpdatedOnlyOnRepeat(m: Results, rows: seq<(int, string)>, email: string, id: int)
    requires Email(email) !in Keys(m)
    requires Get(Recorded(m, rows), Email(email)) == Some(Succeeded(id, Updated))
    ensures exists i, j :: 0 <= i < j < |rows| && rows[i].1 == email && rows[j].1 == email
  {
    var n := |rows| - 1;
    RecordedLast(m, rows, email);
    if rows[n].1 == email {
      RepeatOfLast(m, rows, email);
    } else {
      UpdatedOnlyOnRepeat(m, rows[..n], email, id);
      var i, j :| 0 <= i < j < n && rows[..n][i].1 == email && rows[..n][j].1 == email;
      assert rows[i] == rows[..n][i] && rows[j] == rows[..n][j];
    }
  }

  /** The entry for `email` after the rows loop: set by the last row when it
      carries that email, else as the loop left it one row earlier. */
  lemma RecordedLast(m: Results, rows: seq<(int, string)>, email: string)
    requires rows != []
    ensures var n := |rows| - 1;
      var prev := Recorded(m, rows[..n]);
      Get(Recorded(m, rows), Email(email))
        == if rows[n].1 == email
           then Some(Succeeded(rows[n].0, if Email(email) in Keys(prev) then Updated else Inserted))
           else Get(prev, Email(email))
  {
  }

  /** The last fetched row's email already a key, and not a failure key: an
      earlier row carried it too. */
  lemma RepeatOfLast(m: Results, rows: seq<(int, string)>, email: string)
    requires rows != [] && rows[|rows| - 1].1 == email
    requires Email(email) !in Keys(m)
    requires Email(email) in Keys(Recorded(m, rows[..|rows| - 1]))
    ensures exists i, j :: 0 <= i < j < |rows| && rows[i].1 == email && rows[j].1 == email
  {
    var n := |rows| - 1;
    RecordedKeys(m, rows[..n]);
    assert RowFor(rows[..n], Email(email));
    var i :| 0 <= i < n && Email(rows[..n][i].1) == Email(email);
    assert rows[i] == rows[..n][i];
    assert 0 <= i < n < |rows| && rows[i].1 == email && rows[n].1 == email;
  }

  /** The entries of the 201 result list, in order, one per valid record whose
      email has an entry: each listed entry is the dictionary's value for a valid
      record's email, and every valid record with an entry is listed. */
  lemma {:induction false} ReportedEntries(valid: seq<EmployeeRecord>, m: Results)
    ensures forall j :: 0 <= j < |Reported(valid, m)| ==>
              (exists e :: e in valid && Reported(valid, m)[j].0 == Email(EmailOf(e)))
              && Get(m, Reported(valid, m)[j].0) == Some(Reported(valid, m)[j].1)
    ensures forall e :: e in valid && Get(m, Email(EmailOf(e))).Some?
                   ==> (Email(EmailOf(e)), Get(m, Email(EmailOf(e))).value) in Reported(valid, m)
  {
    ReportedSound(valid, m);
    ReportedComplete(valid, m);
  }

  /** Each listed entry is the dictionary's value for a valid record's email. */
  lemma {:induction false} ReportedSound(valid: seq<EmployeeRecord>, m: Results)
    ensures forall j :: 0 <= j < |Reported(valid, m)| ==>
              (exists e :: e in valid && Reported(valid, m)[j].0 == Email(EmailOf(e)))
              && Get(m, Reported(valid, m)[j].0) == Some(Reported(valid, m)[j].1)
  {
    if valid != [] {
      ReportedSound(valid[1..], m);
      var key := Email(EmailOf(valid[0]));
      var head := if Get(m, key).Some? then [(key, Get(m, key).value)] else [];
      var t := Reported(valid[1..], m);
      var r := Reported(valid, m);
      assert r == head + t;
      forall j | 0 <= j < |r|
        ensures exists e :: e in valid && r[j].0 == Email(EmailOf(e))
        ensures Get(m, r[j].0) == Some(r[j].1)
      {
        if j < |head| {
          assert r[j] == (key, Get(m, key).value);
          assert valid[0] in valid && r[j].0 == Email(EmailOf(valid[0]));
        } else {
          assert r[j] == t[j - |head|];
          var e :| e in valid[1..] && t[j - |head|].0 == Email(EmailOf(e));
          assert e in valid && r[j].0 == Email(EmailOf(e));
        }
      }
    } else {
      assert Reported(valid, m) == [];
    }
  }

  /** Every valid record whose email has an entry is listed. */
  lemma {:induction false} ReportedComplete(valid: seq<EmployeeRecord>, m: Results)
    ensures forall e :: e in valid && Get(m, Email(EmailOf(e))).Some?
                   ==> (Email(EmailOf(e)), Get(m, Email(EmailOf(e))).value) in Reported(valid, m)
  {
    if valid != [] {
      ReportedComplete(valid[1..], m);
      var key := Email(EmailOf(valid[0]));
      var head := if Get(m, key).Some? then [(key, Get(m, key).value)] else [];
      var t := Reported(valid[1..], m);
      assert Reported(valid, m) == head + t;
      forall e | e in valid && Get(m, Email(EmailOf(e))).Some?
        ensures (Email(EmailOf(e)), Get(m, Email(EmailOf(e))).value) in head + t
      {
        if e != valid[0] {
          var i :| 0 <= i < |valid| && valid[i] == e;
          assert valid[1..][i - 1] == e;
          assert (Email(EmailOf(e)), Get(m, Email(EmailOf(e))).value) in t;
        } else {
          assert (head + t)[0] == (key, Get(m, key).value);
        }
      }
    }
  }

  /** The result list follows the order of the valid records. */
  lemma {:induction false} ReportedAppend(a: seq<EmployeeRecord>, b: seq<EmployeeRecord>, m: Results)
    ensures Reported(a + b, m) == Reported(a, m) + Reported(b, m)
  {
    if a == [] {
      assert a + b == b;
    } else {
      var key := Email(EmailOf(a[0]));
      var head := if Get(m, key).Some? then [(key, Get(m, key).value)] else [];
      assert (a + b)[0] == a[0];
      assert (a + b)[1..] == a[1..] + b;
      assert Reported(a + b, m) == head + Reported(a[1..] + b, m);
      ReportedAppend(a[1..], b, m);
      assert Reported(a, m) == head + Reported(a[1..], m);
    }
  }

  /** On 201 every listed entry is a success for a valid record: validation
      failures are never listed, because valid records never share a failure key. */
  lemma {:induction false} CompletedAllSucceed(emps: seq<EmployeeRecord>, table: seq<EmployeeRow>, run: Run)
    requires BulkCreate(Present(emps), table, run).Completed?
    ensures var results := BulkCreate(Present(emps), table, run).results;
      forall j :: 0 <= j < |results| ==>
        results[j].1.Succeeded? && exists e :: e in ValidOf(emps, run.userId) && results[j].0 == Email(EmailOf(e))
  {
    var failures := Failures(emps);
    var valid := ValidOf(emps, run.userId);
    var rows := Fetched(table, valid, run);
    var m := Recorded(failures, rows);
    var results := Reported(valid, m);
    assert BulkCreate(Present(emps), table, run) == StageOn(rows, valid, failures, run);
    CompletedResults(rows, valid, failures, run);
    ReportedEntries(valid, m);
    RecordedSucceeded(failures, rows);
    forall j | 0 <= j < |results|
      ensures results[j].1.Succeeded?
    {
      var e :| e in valid && results[j].0 == Email(EmailOf(e));
      assert Email(EmailOf(e)) !in Keys(failures);
    }
  }

  /** After the error handler every valid record has an entry, entries that
      existed are unchanged, and the new ones carry the error message. */
  lemma {:induction false} ErrorMarking(valid: seq<EmployeeRecord>, m: Results, msg: string)
    ensures forall k :: k in Keys(m) ==> Get(ErrorMarked(valid, m, msg), k) == Get(m, k)
    ensures forall e :: e in valid ==> Email(EmailOf(e)) in Keys(ErrorMarked(valid, m, msg))
    ensures forall k :: k !in Keys(m) && Get(ErrorMarked(valid, m, msg), k).Some?
                   ==> Get(ErrorMarked(valid, m, msg), k) == Some(Failed(msg))
    ensures forall k :: k in Keys(m) ==> k in Keys(ErrorMarked(valid, m, msg))
  {
    if valid != [] {
      var n := |valid| - 1;
      ErrorMarking(valid[..n], m, msg);
      forall e | e in valid
        ensures Email(EmailOf(e)) in Keys(ErrorMarked(valid, m, msg))
      {
        if e != valid[n] {
          var i :| 0 <= i < |valid| && valid[i] == e;
          assert valid[..n][i] == e;
        }
      }
    }
  }

  /** Under autocommit (how the handler's connection is opened), a chunk INSERT
      that raises leaves the MERGE applied and every affected employee without any
      chunk, while the response reports a database error. */
  lemma {:induction false} InsertFailureLosesChunks(t: Tables, valid: seq<EmployeeRecord>, failures: Results,
                                                   run: Run, id: int)
    requires run.autocommit && run.outcome.Fails? && run.outcome.at == InsertChunks
    requires id in Affected(Fetched(t.employees, valid, run))
    requires Rebuilt(valid, Fetched(t.employees, valid, run), run.userId) != []
    ensures DbStage(t.employees, valid, failures, run).DbFailure?
    ensures DbTables(t, valid, run).employees == Merge(t.employees, valid, run.nextId, run.now)
    ensures OfEmployee(DbTables(t, valid, run).chunks, id) == []
  {
    var rows := Fetched(t.employees, valid, run);
    InsertFailure(t, Merge(t.employees, valid, run.nextId, run.now), rows, valid, failures, run);
    OfEmployeeWithout(t.chunks, Affected(rows), id);
  }

  /** A chunk INSERT that raises with chunks to insert: a database error, and
      under autocommit the MERGE and the DELETE stay. */
  lemma InsertFailure(t: Tables, merged: seq<EmployeeRow>, rows: seq<(int, string)>, valid: seq<EmployeeRecord>,
                      failures: Results, run: Run)
    requires run.outcome.Fails? && run.outcome.at == InsertChunks && Rebuilt(valid, rows, run.userId) != []
    ensures StageOn(rows, valid, failures, run).DbFailure?
    ensures TablesOn(t, merged, rows, valid, run)
         == if run.autocommit then Tables(merged, WithoutEmployees(t.chunks, Affected(rows))) else t
  {
    assert EndingOn(rows, valid, run) == run.outcome;
  }

  /** A commit that raises: a database error reporting the rows loop's results;
      under autocommit every statement before it stays. */
  lemma CommitFailure(t: Tables, merged: seq<EmployeeRow>, rows: seq<(int, string)>, valid: seq<EmployeeRecord>,
                      failures: Results, run: Run)
    requires run.outcome.Fails? && run.outcome.at == Commit
    ensures var msg := ErrorMessage(run.outcome.error);
      StageOn(rows, valid, failures, run) == DbFailure(msg, ErrorMarked(valid, Recorded(failures, rows), msg))
    ensures TablesOn(t, merged, rows, valid, run)
         == if run.autocommit then Tables(merged, Refreshed(t.chunks, valid, rows, run.userId)) else t
  {
    assert EndingOn(rows, valid, run) == run.outcome;
  }

  /** A stage that completes lists the dictionary of the rows loop. */
  lemma CompletedResults(rows: seq<(int, string)>, valid: seq<EmployeeRecord>, failures: Results, run: Run)
    requires StageOn(rows, valid, failures, run).Completed?
    ensures StageOn(rows, valid, failures, run).results == Reported(valid, Recorded(failures, rows))
  {
    assert EndingOn(rows, valid, run).Completes?;
  }

  /** When the statements form one transaction, a response reporting a database
      error leaves both tables as they were. */
  lemma {:induction false} FailureKeepsTables(t: Tables, body: Field<seq<EmployeeRecord>>, run: Run)
    requires !run.autocommit
    requires BulkCreate(body, t.employees, run).DbFailure?
    ensures TablesAfter(t, body, run) == t
    ensures BulkCreate(body, t.employees, run).Status() == 400
  {
  }

  lemma {:induction false} OfEmployeeAppend(a: seq<Chunk>, b: seq<Chunk>, id: int)
    ensures OfEmployee(a + b, id) == OfEmployee(a, id) + OfEmployee(b, id)
  {
    if a == [] {
      assert a + b == b;
    } else {
      assert (a + b)[1..] == a[1..] + b;
      OfEmployeeAppend(a[1..], b, id);
    }
  }

  /** Deleting a set of employees removes exactly their rows and keeps every other
      employee's rows in order. */
  lemma {:induction false} OfEmployeeWithout(cs: seq<Chunk>, ids: set<int>, id: int)
    ensures OfEmployee(WithoutEmployees(cs, ids), id) == if id in ids then [] else OfEmployee(cs, id)
  {
    if cs != [] {
      OfEmployeeWithout(cs[1..], ids, id);
      var head := if cs[0].employeeId in ids then [] else [cs[0]];
      OfEmployeeAppend(head, WithoutEmployees(cs[1..], ids), id);
    }
  }

  /** A list holding no row of `id` has no rows for `id`. */
  lemma OfEmployeeNone(cs: seq<Chunk>, id: int)
    requires forall c :: c in cs ==> c.employeeId != id
    ensures OfEmployee(cs, id) == []
  {
  }

  /** Every freshly compiled chunk belongs to a fetched id that is not 0, and to the caller. */
  lemma {:induction false} RebuiltOwners(valid: seq<EmployeeRecord>, rows: seq<(int, string)>, userId: int)
    ensures forall c :: c in Rebuilt(valid, rows, userId)
                   ==> c.employeeId in Affected(rows) && c.employeeId != 0 && c.userId == userId
  {
    if valid != [] {
      var n := |valid| - 1;
      RebuiltOwners(valid[..n], rows, userId);
      var e := valid[n];
      var id := FirstId(rows, EmailOf(e));
      if id.Some? && id.value != 0 {
        CompileWellFormed(e.(fileData := Null), id.value, userId);
      }
    }
  }

  /** The chunk rebuild, employee by employee: an affected employee's rows are
      exactly its freshly compiled ones, and every other employee's rows are as before. */
  lemma {:induction false} RebuildPerEmployee(chunks: seq<Chunk>, valid: seq<EmployeeRecord>,
                                             rows: seq<(int, string)>, userId: int, id: int)
    ensures id in Affected(rows) ==>
      OfEmployee(Refreshed(chunks, valid, rows, userId), id) == OfEmployee(Rebuilt(valid, rows, userId), id)
    ensures id !in Affected(rows) ==>
      OfEmployee(Refreshed(chunks, valid, rows, userId), id) == OfEmployee(chunks, id)
  {
    var ids := Affected(rows);
    var rebuilt := Rebuilt(valid, rows, userId);
    OfEmployeeAppend(WithoutEmployees(chunks, ids), rebuilt, id);
    OfEmployeeWithout(chunks, ids, id);
    if id !in ids {
      RebuiltOwners(valid, rows, userId);
      OfEmployeeNone(rebuilt, id);
      assert OfEmployee(chunks, id) + [] == OfEmployee(chunks, id);
    } else {
      assert [] + OfEmployee(rebuilt, id) == OfEmployee(rebuilt, id);
    }
  }

  /** The MERGE on an existing row: it keeps its id and resignation columns; it is
      untouched when no record with an id matches it, and otherwise takes the email
      and columns of the first record with an id that matches it. */
  lemma {:induction false} MergeUpdates(table: seq<EmployeeRow>, valid: seq<EmployeeRecord>, nextId: int, now: int,
                                       i: int)
    requires 0 <= i < |table|
    ensures Merge(table, valid, nextId, now)[i].id == table[i].id
    ensures Merge(table, valid, nextId, now)[i].resignStatus == table[i].resignStatus
    ensures Merge(table, valid, nextId, now)[i].resignDate == table[i].resignDate
    ensures (forall k :: 0 <= k < |valid| ==> !Updates(table[i], valid[k])) ==> Merge(table, valid, nextId, now)[i] == table[i]
    ensures forall k :: 0 <= k < |valid| && Updates(table[i], valid[k]) && (forall j :: 0 <= j < k ==> !Updates(table[i], valid[j]))
              ==> Merge(table, valid, nextId, now)[i]
                  == table[i].(email := EmailOf(valid[k]), data := valid[k], updatedAt := Some(now))
  {
    var r := Merge(table, valid, nextId, now);
    assert r[i] == MergedRow(table[i], valid, now);
    forall k | 0 <= k < |valid| && Updates(table[i], valid[k]) && (forall j :: 0 <= j < k ==> !Updates(table[i], valid[j]))
      ensures r[i] == table[i].(email := EmailOf(valid[k]), data := valid[k], updatedAt := Some(now))
    {
      var u := Updater(table[i], valid);
      var q :| 0 <= q < |valid| && valid[q] == u.value && Updates(table[i], u.value)
               && forall j :: 0 <= j < q ==> !Updates(table[i], valid[j]);
    }
  }

  /** The MERGE's inserted rows: after the existing rows come the records that
      match no row, one new row each, with ids counting up from `nextId`, not
      resigned; every record that matches no row gets one. */
  lemma {:induction false} MergeInserts(table: seq<EmployeeRow>, valid: seq<EmployeeRecord>, nextId: int, now: int)
    ensures |Merge(table, valid, nextId, now)| == |table| + |Unmatched(table, valid)|
    ensures forall j :: |table| <= j < |Merge(table, valid, nextId, now)| ==>
              Merge(table, valid, nextId, now)[j].data in valid
              && Unclaimed(table, Merge(table, valid, nextId, now)[j].data)
              && Merge(table, valid, nextId, now)[j].email == EmailOf(Merge(table, valid, nextId, now)[j].data)
              && Merge(table, valid, nextId, now)[j].id == nextId + j - |table|
              && !Merge(table, valid, nextId, now)[j].resignStatus
              && Merge(table, valid, nextId, now)[j].resignDate.None?
    ensures forall s :: s in valid && Unclaimed(table, s) ==>
              exists j :: |table| <= j < |Merge(table, valid, nextId, now)| && Merge(table, valid, nextId, now)[j].data == s
  {
    var r := Merge(table, valid, nextId, now);
    var news := Unmatched(table, valid);
    forall j | |table| <= j < |r|
      ensures r[j] == EmployeeRow(nextId + j - |table|, EmailOf(news[j - |table|]), news[j - |table|], false, None, None)
      ensures news[j - |table|] in news
    {
    }
    forall s | s in valid && Unclaimed(table, s)
      ensures exists j :: |table| <= j < |r| && r[j].data == s
    {
      var k :| 0 <= k < |news| && news[k] == s;
      assert r[|table| + k].data == s;
    }
  }

  /** A create in which no statement raises, with some valid record, completes
      and leaves the employees table as the MERGE made it. */
  lemma {:induction false} CompletedRun(t: Tables, emps: seq<EmployeeRecord>, run: Run)
    requires run.outcome.Completes? && ValidOf(emps, run.userId) != []
    ensures BulkCreate(Present(emps), t.employees, run).Completed?
    ensures TablesAfter(t, Present(emps), run).employees
            == Merge(t.employees, ValidOf(emps, run.userId), run.nextId, run.now)
  {
    assert Ending(t.employees, ValidOf(emps, run.userId), run) == Completes;
  }

  /** The MERGE gives a record that matches no row a row of its own, which an
      UPDATE by its id finds. */
  lemma {:induction false} InsertedRow(table: seq<EmployeeRow>, valid: seq<EmployeeRecord>, nextId: int, now: int,
                                      s: EmployeeRecord)
    requires s in valid && Unclaimed(table, s)
    ensures var after := Merge(table, valid, nextId, now);
      exists j :: 0 <= j < |after| && after[j].data == s && after[j].email == EmailOf(s)
                  && RowCount(after, after[j].id) > 0
  {
    var after := Merge(table, valid, nextId, now);
    MergeInserts(table, valid, nextId, now);
    var j :| 0 <= j < |after| && after[j].data == s && after[j].email == EmailOf(s);
    assert !(forall i :: 0 <= i < |after| ==> after[i].id != after[j].id);
  }

  /** A completed create inserts every valid record that matches no row, so a
      later resign of the new id finds it (its UPDATE counts a row). */
  lemma {:induction false} CreatedThenFound(t: Tables, emps: seq<EmployeeRecord>, run: Run, s: EmployeeRecord)
    requires run.outcome.Completes?
    requires s in ValidOf(emps, run.userId) && Unclaimed(t.employees, s)
    ensures BulkCreate(Present(emps), t.employees, run).Completed?
    ensures var after := TablesAfter(t, Present(emps), run).employees;
      exists j :: 0 <= j < |after| && after[j].data == s && after[j].email == EmailOf(s)
                  && RowCount(after, after[j].id) > 0
  {
    CompletedRun(t, emps, run);
    InsertedRow(t.employees, ValidOf(emps, run.userId), run.nextId, run.now, s);
  }

  // ---------------------------------------------------------------------------
  // How the rows loop labels its results

  /** As written, an existing employee that the MERGE updates (posted with its id
      and email) is reported `success (inserted)`: the action depends on
      `results_map`, which holds no valid record's email before the rows loop. */
  lemma {:induction false} ExistingReportedInserted(row: EmployeeRow, e: EmployeeRecord, run: Run)
    requires e.id == Present(row.id) && e.email == Present(row.email)
    requires run.outcome.Completes?
    ensures Merge([row], [e], run.nextId, run.now) == [row.(data := e, updatedAt := Some(run.now))]
    ensures DbStage([row], [e], [], run) == Completed([(Email(row.email), Succeeded(row.id, Inserted))])
  {
    assert Updates(row, e);
    assert Updater(row, [e]) == Some(e);
    assert Matches([row][0], e);
    assert !Unclaimed([row], e);
    assert Unmatched([row], [e]) == [] + Unmatched([row], []);
    var merged := Merge([row], [e], run.nextId, run.now);
    assert merged == [row.(data := e, updatedAt := Some(run.now))];
    var pairs := Pairs(merged);
    assert pairs == [(row.id, row.email)];
    assert e in [e] && EmailOf(e) == row.email;
    assert Selected(pairs, [e]) == [(row.id, row.email)] + Selected([], [e]);
    var rows := Fetched([row], [e], run);
    assert rows == [(row.id, row.email)];
    assert rows[..0] == [];
    assert Recorded([], rows[..0]) == [];
    var m := Recorded([], rows);
    assert m == [(Email(row.email), Succeeded(row.id, Inserted))];
    assert Reported([e], m) == [(Email(row.email), Succeeded(row.id, Inserted))] + Reported([], m);
  }

  /** `results_map` after the rows loop as evidently intended: a row reports
      `updated` when its id was in the table before the MERGE (`before`) and
      `inserted` when the MERGE created it. */
  function RecordedAsMerged(m: Results, rows: seq<(int, string)>, before: set<int>): Results
  {
    if rows == [] then m
    else
      var n := |rows| - 1;
      var action := if rows[n].0 in before then Updated else Inserted;
      Put(RecordedAsMerged(m, rows[..n], before), Email(rows[n].1), Succeeded(rows[n].0, action))
  }

  /** A key the corrected loop adds holds the entry of a fetched row with that email. */
  lemma {:induction false} RecordedAsMergedEntry(m: Results, rows: seq<(int, string)>, before: set<int>, k: Key)
    requires k !in Keys(m) && Get(RecordedAsMerged(m, rows, before), k).Some?
    ensures exists i :: 0 <= i < |rows| && Email(rows[i].1) == k
              && Get(RecordedAsMerged(m, rows, before), k)
                 == Some(Succeeded(rows[i].0, if rows[i].0 in before then Updated else Inserted))
  {
    var n := |rows| - 1;
    if Email(rows[n].1) != k {
      RecordedAsMergedEntry(m, rows[..n], before, k);
      var i :| 0 <= i < n && Email(rows[..n][i].1) == k
               && Get(RecordedAsMerged(m, rows[..n], before), k)
                  == Some(Succeeded(rows[..n][i].0, if rows[..n][i].0 in before then Updated else Inserted));
      assert rows[..n][i] == rows[i];
    }
  }

  /** With identity ids above every existing id, a merged row's id was in the
      table before the MERGE exactly when the row is not one the MERGE inserted. */
  lemma MergedIds(table: seq<EmployeeRow>, valid: seq<EmployeeRecord>, nextId: int, now: int, p: int)
    requires forall i :: 0 <= i < |table| ==> table[i].id < nextId
    requires 0 <= p < |Merge(table, valid, nextId, now)|
    ensures Merge(table, valid, nextId, now)[p].id in Ids(table) <==> p < |table|
    ensures p >= |table| ==> Merge(table, valid, nextId, now)[p].id >= nextId
  {
    MergeInserts(table, valid, nextId, now);
    if p < |table| {
      MergeUpdates(table, valid, nextId, now, p);
      assert table[p] in table;
    } else {
      forall t | t in table
        ensures t.id < nextId
      {
        var q :| 0 <= q < |table| && table[q] == t;
      }
    }
  }

  /** With the corrected loop, and identity ids above every existing id, an email
      is reported `inserted` exactly when its row is one the MERGE inserted. */
  lemma {:induction false} IntendedActions(table: seq<EmployeeRow>, valid: seq<EmployeeRecord>, nextId: int, now: int,
                                          m: Results, k: Key, id: int, a: Action)
    requires forall i :: 0 <= i < |table| ==> table[i].id < nextId
    requires k !in Keys(m)
    requires Get(RecordedAsMerged(m, Selected(Pairs(Merge(table, valid, nextId, now)), valid), Ids(table)), k)
             == Some(Succeeded(id, a))
    ensures a == Inserted <==>
              exists j :: |table| <= j < |Merge(table, valid, nextId, now)| && Merge(table, valid, nextId, now)[j].id == id
  {
    var merged := Merge(table, valid, nextId, now);
    var rows := Selected(Pairs(merged), valid);
    RecordedAsMergedEntry(m, rows, Ids(table), k);
    var i :| 0 <= i < |rows| && Email(rows[i].1) == k
             && Get(RecordedAsMerged(m, rows, Ids(table)), k)
                == Some(Succeeded(rows[i].0, if rows[i].0 in Ids(table) then Updated else Inserted));
    assert rows[i] in rows;
    var p :| 0 <= p < |merged| && Pairs(merged)[p] == rows[i];
    assert merged[p].id == id;
    MergedIds(table, valid, nextId, now, p);
    if a == Inserted {
      assert |table| <= p < |merged| && merged[p].id == id;
    } else {
      forall j | |table| <= j < |merged|
        ensures merged[j].id != id
      {
        MergedIds(table, valid, nextId, now, j);
      }
    }
  }


  /** Resigning removes every row of that employee and no row of any other. */
  lemma {:induction false} ResignChunks(chunks: seq<Chunk>, id: int, other: int)
    ensures OfEmployee(WithoutEmployees(chunks, {id}), id) == []
    ensures other != id ==> OfEmployee(WithoutEmployees(chunks, {id}), other) == OfEmployee(chunks, other)
  {
    OfEmployeeWithout(chunks, {id}, id);
    OfEmployeeWithout(chunks, {id}, other);
  }
}
