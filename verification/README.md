# Prosterio server core, modelled in Dafny

Prosterio is a Flask back end. It keeps employee CVs in a Snowflake warehouse,
cuts each CV into labelled text chunks for retrieval, and answers questions over
them with a language model. This project models the parts of the server that are
its own logic rather than calls into other services:

- **The chunk compiler** (`compile_to_chunk`). It turns one employee record into an
  ordered list of single-line chunks (`chunking.dfy`).
- **Bulk employee creation** (`create_employee`):
  - per-record validation;
  - the results map;
  - the status code;
  - the MERGE into the employees table;
  - the delete-then-insert rebuild of the chunk table;
  - the marking of records on a database error;
  - what each table keeps when a statement fails (`employees.dfy`).
- **Resigning an employee**, which also removes that employee's chunks (`employees.dfy`).
- **The authentication gate** (`check_auth`) and the request context it fills (`auth.dfy`).
- **The Users table** under account creation and the two-step OTP password reset (`accounts.dfy`).
- **The login decision** (`login.dfy`).
- **CV extraction from uploaded PDFs**: the per-file result loop and the `{…}` span of
  a model reply (`documents.dfy`).
- **RAG answer scoring** (`rag_eval.dfy`):
  - the token-overlap groundedness and relevance scores;
  - the evaluator's JSON extraction;
  - the rule that merges the evaluator's scores into the local ones.
- **The in-memory chat and interview lists** (`chats.dfy`, `interviews.dfy`).

Shared value types are in `common.dfy`: JSON fields as `dict.get` sees them, JSON
scalars, and insertion-ordered dicts. The Python string operations used are in
`text.dfy`.

Where the source keeps state, the model does too:

- The chunk compiler and the employee, document and evaluation loops are methods
  with loop invariants. Each is proved equal to a specification function. The
  account routes have no loop: they are methods of the Users table whose results
  and new state are tied to one outcome function per route.
- The warehouse tables, the Users table, the request context and the two lists are
  class fields that the methods update.
- Everything else is functions, with lemmas about them.

Every external service is a parameter of the operation that calls it:

- Snowflake: the next identity value, the `CURRENT_TIMESTAMP()` written as
  `updated_at`, which statement raises, and whether
  the connection commits each statement on its own;
- bcrypt hashing and checking;
- JWT signing and decoding;
- the mail service;
- the PDF loader, Gemini, Cortex and `json.loads`;
- `float()`;
- the random OTP digits;
- the server's clock, which `datetime.now()` reads for the OTP expiry.

Time is a whole number of seconds.

In four places the code and the design description of the system differ; the
model follows the code:

- **Token errors.** The description says that expired and malformed tokens are
  rejected uniformly. The code rejects both with 401, but with different messages:
  "Token expired" and "Invalid token".
- **Transactions in bulk creation.** The description speaks of a transaction per
  record. The code opens its connection with the connector's default, under which
  every statement is committed as it runs, so its `rollback()` undoes nothing. The
  model makes that setting part of each run: on is the code as written, and off is
  the single transaction the rollback calls evidently intend (see Findings).
- **Validation failures in a successful bulk creation.** The description's example
  answers 201 with the successes and the validation failures of the batch. The code
  lists only the valid records in a 201 answer (app/routes/employees.py:316), so
  the failures it collected are dropped; `Employees.CompletedAllSucceed` states this.
  They are listed only in the 400 answer given when no record is valid.
- **Missing list fields.** The description says the list fields of an employee
  default to empty and are never null. The code stores `employee.get(field)`
  (app/routes/employees.py:148), which is None for a missing field;
  `Employees.OrNone` and `Employees.Prepare` model that.

## Model

| member | source | states |
|---|---|---|
| Common.Put | app/routes/employees.py:140 | assigning into a Python dict: the key then maps to the new value, other keys keep theirs, an existing key keeps its place and a new key goes last |
| Text.StripIdempotent | app/helpers/chunking.py:21 | specifies `Strip`: `strip()` applied twice gives the same as once |
| Text.StripSlice | app/helpers/chunking.py:21 | specifies `Strip`: `strip()` returns a contiguous slice of its input, and only whitespace is cut off at either end |
| Text.NewlinesReplaced | app/helpers/chunking.py:21 | after `replace("\n", ". ")` no newline is left, and text without newlines is unchanged |
| Text.BeforeAvoidsSep | app/middleware/auth.py:33 | specifies `Before` (`split(sep)[0]`): the piece never contains the separator |
| Text.BeforeIsPrefix | app/middleware/auth.py:33 | the first piece of `split(sep)` is a prefix of the text |
| Text.Lower | app/routes/test_rag.py:27 | `lower()` keeps the length, turns each ASCII capital into its own lower-case letter (code plus 32), keeps every other character, and so leaves no capital and keeps whitespace where it was |
| Text.Words | app/routes/test_rag.py:27 | every word of `split()` is non-empty and holds no whitespace |
| Text.WordsAreRuns | app/routes/test_rag.py:27 | a word is in `split()` exactly when it is a maximal run of non-whitespace characters of the text |
| Text.JoinSnoc | app/routes/documents.py:90 | joining one more item appends the separator and the item |
| Text.JsonSpan | app/routes/documents.py:97-99 | the `\{.*\}` DOTALL search finds nothing iff no `{` precedes a `}`; otherwise it returns the slice from the first `{` to the last `}` |
| Chunking.PromotionLine | app/helpers/chunking.py:33-34 | the promotion line is added exactly when `promotion_years` is not None |
| Chunking.ProfileLine | app/helpers/chunking.py:35-36 | the profile line is added exactly when `profile` is non-empty |
| Chunking.PromotionZeroKept | app/helpers/chunking.py:33-34 | `promotion_years == 0` is still printed, because the test is `is not None` and not truthiness |
| Chunking.MakeChunk | app/helpers/chunking.py:19-27 | `add_chunk` copies the type, `employee_id` and `user_id` from its arguments |
| Chunking.FormatIsNormal | app/helpers/chunking.py:21 | the formatted content has no newline, and formatting it again changes nothing |
| Chunking.MakeChunkWellFormed | app/helpers/chunking.py:21-26 | every chunk's text is `TYPE of <full_name>: ` followed by normalised content, and the chunk carries the given ids |
| Chunking.Section | app/helpers/chunking.py:45-66 | a per-entry category gives exactly one chunk per list entry, all of that category and owner |
| Chunking.Joined | app/helpers/chunking.py:40-42 | skills (and, the same way at lines 69-71, certifications) give one chunk when the list is non-empty and none otherwise |
| Chunking.AddSection | app/helpers/chunking.py:45-66 | the loop over one category's entries appends exactly that category's section |
| Chunking.CompileToChunk | app/helpers/chunking.py:6-73 | the imperative `compile_to_chunk` returns exactly the specified chunk list |
| Chunking.CompileLength | app/helpers/chunking.py:37-73 | specifies the length of `Compile`: 1 + [skills non-empty] + number of experiences + educations + publications + distinctions + [certifications non-empty] |
| Chunking.CompileByKind | app/helpers/chunking.py:32-71 | specifies `Compile` and the content functions by category: exactly one INFORMATION chunk with the info content (`InfoContent`); SKILLS is the ","-join; one chunk per entry, in input order, for the four list categories; CERTIFICATIONS is the " \| "-join |
| Chunking.CompileOrder | app/helpers/chunking.py:37-73 | the chunks follow the fixed category order, and the first is INFORMATION |
| Chunking.CompileWellFormed | app/helpers/chunking.py:19-27 | every chunk in the output has the heading shape, normalised content and the given ids |
| Chunking.CompileReadsOnly | app/helpers/chunking.py:7-17 | the output depends only on the fields read with their defaults (a missing, null or empty list are the same) |
| Chunking.OfKindAppend | app/helpers/chunking.py:22 | selecting one category from a concatenation selects from each part |
| Employees.OrNone | app/routes/employees.py:148 | `employee.get(field)` stores None for a missing key and keeps a present value |
| Employees.Prepare | app/routes/employees.py:145-151 | a processed record is a copy in which only the six list fields (set to the value or None) and `user_id` differ |
| Employees.Validate | app/routes/employees.py:137-152 | the validation loop computes exactly the failure map (`Failures`) and the list of prepared records (`Processed`) |
| Employees.FailuresMatchInvalid | app/routes/employees.py:137-141 | specifies `Failures`: there is a failure key exactly for each record missing email, full_name or job_title, keyed by its email (None when null) or `unknown_<i>`, and every entry is the missing-fields failure |
| Employees.ProcessedCopies | app/routes/employees.py:145-152 | specifies `Processed`: the records to process are exactly the prepared copies of the valid records |
| Employees.Unfailed | app/routes/employees.py:155 | a prepared record is kept iff its email is not a failure key |
| Employees.ValidRecords | app/routes/employees.py:137-155 | the valid list holds exactly the prepared valid records whose email did not also fail validation |
| Employees.AllInvalid | app/routes/employees.py:137-155 | when every record fails validation there is no valid record |
| Employees.NoValidRecords | app/routes/employees.py:157-159 | specifies `BulkCreate` and `TablesAfter` when no record is valid: the answer is 400, it lists the failure map, which has one key per failed record, and neither table changes |
| Employees.StatusCode | app/routes/employees.py:131-347 | specifies the status of `BulkCreate`: 201 iff employees were sent, some are valid and no statement of the database stage raises; 400 otherwise; a run in which no statement raises gives 201 |
| Employees.Updater | app/routes/employees.py:216-217 | the record that updates a row is the first valid record with an id that matches the row by id or email; none iff no such record exists |
| Employees.Unmatched | app/routes/employees.py:234-246 | the MERGE inserts exactly the valid records that match no row |
| Employees.MergeUpdates | app/routes/employees.py:196-233 | specifies `Merge` on an existing row: it keeps its id and resignation columns, is untouched when no record with an id matches it, and otherwise takes the email and columns of the first such record, with `updated_at` set to now |
| Employees.MergeInserts | app/routes/employees.py:234-246 | specifies the rows `Merge` inserts: one per record matching no row, holding that record's email and columns, with ids counting up from the next identity value, not resigned; every record matching no row gets one |
| Employees.InsertedRow | app/routes/employees.py:234-246 | a valid record matching no row has a row of its own after the MERGE |
| Employees.Selected | app/routes/employees.py:256-264 | the fetched rows are exactly the merged table's rows whose email is a valid record's email |
| Employees.RecordRows | app/routes/employees.py:267-272 | the results loop computes exactly the results map (`Recorded`) and the affected ids |
| Employees.RecordedKeys | app/routes/employees.py:267-272 | specifies `Recorded`: the results map's keys are the earlier keys plus one per fetched email |
| Employees.RecordedSucceeded | app/routes/employees.py:269-271 | every entry the loop adds is a success carrying the employee id |
| Employees.UpdatedOnlyOnRepeat | app/routes/employees.py:269 | "updated" is reported for a fresh email only if the fetched rows hold that email twice |
| Employees.ExistingReportedInserted | app/routes/employees.py:269 | an existing employee, posted with its id and email, is updated by the MERGE yet reported "success (inserted)" |
| Employees.RecordedAsMergedEntry | app/routes/employees.py:267-271 | in the corrected loop, each added key holds the entry of a fetched row with that email, labelled by whether its id existed before the MERGE |
| Employees.IntendedActions | app/routes/employees.py:269 | with the corrected loop and fresh identity values, an email is reported "inserted" exactly when its row is one the MERGE inserted |
| Employees.Affected | app/routes/employees.py:267-272 | the affected ids are exactly the fetched rows' ids |
| Employees.FirstId | app/routes/employees.py:292 | `next(...)` gives None iff no fetched row has the email, and otherwise the id of the first such row |
| Employees.WithoutEmployees | app/routes/employees.py:274-280 | the delete keeps exactly the chunk rows whose employee id is not affected |
| Employees.WithoutNobody | app/routes/employees.py:275 | skipping the delete when there are no affected ids leaves the table as it is |
| Employees.RebuildChunks | app/routes/employees.py:287-300 | the chunk loop computes exactly the specified new chunk list (`Rebuilt`) |
| Employees.PreparedCompilesAlike | app/routes/employees.py:145-152 | compiling the prepared copy with `file_data` nulled gives the same chunks as compiling the original record |
| Employees.RebuiltOwners | app/routes/employees.py:292-296 | specifies `Rebuilt` and `ChunksFor`: every new chunk belongs to an affected, non-zero employee id and to the caller |
| Employees.RebuildPerEmployee | app/routes/employees.py:274-310 | specifies `Refreshed`, the chunk table after a completed stage: an affected employee's chunks are exactly the freshly compiled ones, and every other employee's chunks are unchanged |
| Employees.ReportedEntries | app/routes/employees.py:316 | specifies `Reported`: each 201 result entry is a valid record's results-map entry, and every valid record with an entry is listed |
| Employees.ReportedAppend | app/routes/employees.py:316 | the 201 result list follows the order of the valid records |
| Employees.CompletedAllSucceed | app/routes/employees.py:316 | in a 201 answer every listed entry is a success for a valid record, so validation failures are not listed |
| Employees.ReportFailure | app/routes/employees.py:322-347 | the error handler's loop marks the records (`ErrorMarked`) and answers 400 with the message |
| Employees.ErrorMarking | app/routes/employees.py:329-345 | specifies `ErrorMarked`: existing entries are never overwritten; every valid record gets an entry; every new entry is the same failure |
| Employees.InsertFailureLosesChunks | app/routes/employees.py:274-340 | specifies `DbStage` and `DbTables` under autocommit: a chunk INSERT that raises leaves the MERGE applied and every affected employee with no chunks, while the answer reports a database error |
| Employees.DeleteFailure | app/routes/employees.py:274-340 | a DELETE that raises with affected ids answers 400 with the rows loop's results, the other valid records marked with the error; under autocommit the MERGE stays and the chunks are untouched, otherwise both tables are as before |
| Employees.InsertFailure | app/routes/employees.py:302-340 | a chunk INSERT that raises with chunks to insert answers with a database error; under autocommit the MERGE and the DELETE stay, otherwise both tables are as before |
| Employees.CommitFailure | app/routes/employees.py:314-340 | a commit that raises answers 400 with the rows loop's results marked by the error; under autocommit every statement before it stays, otherwise both tables are as before |
| Employees.FailureKeepsTables | app/routes/employees.py:322-340 | specifies `TablesAfter` without autocommit: an answer reporting a database error leaves both tables as they were |
| Employees.CompletedRun | app/routes/employees.py:164-320 | a run in which no statement raises completes and leaves the employees table as the MERGE made it |
| Employees.CreatedThenFound | app/routes/employees.py:234-246 | a completed create gives every valid record matching no row a row, so a later resign of its id counts a row and succeeds |
| Employees.Warehouse.RunDbStage | app/routes/employees.py:164-347 | the database stage returns the specified response (`DbStage`) and leaves both tables as specified (`DbTables`) |
| Employees.Warehouse.AfterMerge | app/routes/employees.py:256-347 | the statements after the MERGE return the specified response and tables |
| Employees.Warehouse.InsertChunksAndCommit | app/routes/employees.py:286-347 | the chunk INSERT and the commit return the specified response and tables |
| Employees.Warehouse.Rollback | app/routes/employees.py:326 | `conn.rollback()` restores both tables as the stage found them, and changes nothing under autocommit |
| Employees.Warehouse.CreateEmployees | app/routes/employees.py:127-347 | the bulk-create route returns the specified response (`BulkCreate`) and leaves both tables as specified (`TablesAfter`) |
| Employees.MarkResigned | app/routes/employees.py:431-437 | the UPDATE sets the resign status, resign date and update time on the rows with that id, and only on them |
| Employees.RowCount | app/routes/employees.py:439 | the row count is 0 iff no row has the id |
| Employees.Warehouse.Resign | app/routes/employees.py:427-445 | resigning succeeds iff the id exists; not found changes nothing; otherwise the rows are marked and that employee's chunks are deleted |
| Employees.ResignChunks | app/routes/employees.py:442 | after resigning, the employee has no chunks and every other employee's chunks are unchanged |
| Employees.OfEmployeeWithout | app/routes/employees.py:274-280 | deleting by a set of ids empties exactly those employees' chunks |
| Auth.Check | app/middleware/auth.py:20-55 | the gate only ever rejects with 401 or 403, and 403 always carries "Invalid token payload" |
| Auth.RequestContext.CheckAuth | app/middleware/auth.py:7-55 | the gate's verdict is the specified one; `g` receives the payload's id, email and role (`Stamped`) whenever a payload was decoded, even before a 403, and is untouched otherwise |
| Auth.ExemptBelowPrefix | app/middleware/auth.py:9-21 | specifies `Exempt`: exemption is a prefix match, so any path continuing an exempt prefix is exempt |
| Auth.VerifyEndpointExempt | app/middleware/auth.py:9-21 | e.g. `/api/forgot-password/verify` passes without a token |
| Auth.BypassPasses | app/middleware/auth.py:20-24 | exempt paths and OPTIONS requests pass whatever the header, and record nothing |
| Auth.HeaderRejection | app/middleware/auth.py:27-29 | on a guarded request, 401 "Missing or invalid Authorization header" is given iff the header is absent, empty or lacks `Bearer ` |
| Auth.TokenExtraction | app/middleware/auth.py:33 | specifies `TokenOf`: the token is a prefix of the text after `Bearer `, never contains `Bearer `, and is all of that text when `Bearer ` does not occur again |
| Auth.DecodeOutcomes | app/middleware/auth.py:36-55 | a payload passes iff its `id` is truthy, else 403; expired gives 401 "Token expired"; invalid gives 401 "Invalid token"; any other error gives 401 "Token error: …" |
| Auth.PassedCallerKnown | app/middleware/auth.py:43-48 | a guarded request that passes had a Bearer header and a payload with a truthy id, and that payload is recorded |
| Accounts.ActiveIndex | app/routes/login.py:82-83 | the lookup finds the first non-deleted row with the email in table order, or none exactly when no such row exists |
| Accounts.GenerateOtp | app/routes/forgot_password.py:11-13 | a code is six decimal digits, one per random pick |
| Accounts.EveryCodePossible | app/routes/forgot_password.py:11-13 | every six-digit string can be drawn |
| Accounts.UserTable.CreateUser | app/routes/users.py:35-73 | the route returns the specified reply and leaves the table as specified |
| Accounts.CreateOutcomes | app/routes/users.py:41-71 | specifies `CreateOutcome`: creation succeeds iff all four fields are given, hashing works, no active user has the email and the insert works; success appends exactly one row holding the hash and echoes name, email and role without the password; every failure leaves the table unchanged |
| Accounts.CreateErrors | app/routes/users.py:41-56 | the errors come in order: 400 missing fields, then 500 hashing failure, then 409 email exists |
| Accounts.CreateKeepsUnique | app/routes/users.py:54-62 | creating a user keeps emails unique among non-deleted users |
| Accounts.UserTable.RequestReset | app/routes/forgot_password.py:64-125 | the route returns the specified reply and leaves the table as specified |
| Accounts.RequestOutcomes | app/routes/forgot_password.py:67-125 | specifies `RequestOutcome`: a request succeeds iff an email is given, an active user has it and the mail is sent; success stores the code and now + 900 s on every row with that email and nowhere else; 400, 404 and mail failure store nothing |
| Accounts.WithOtp | app/routes/forgot_password.py:115-119 | the UPDATE sets code and expiry on every row with the email, deleted or not, and only there |
| Accounts.UserTable.VerifyOtp | app/routes/forgot_password.py:188-232 | the route returns the specified reply and leaves the table as specified |
| Accounts.VerifyOutcomes | app/routes/forgot_password.py:193-236 | specifies `VerifyOutcome`: missing fields give 400; success requires the stored code to equal the given one, now ≤ expiry and a working hash; it then sets the hash and clears code and expiry on the user's rows (by id) only; a hashing failure after the checks gives 500 "Server error: …"; failures change nothing |
| Accounts.CodeCheckedFirst | app/routes/forgot_password.py:214-218 | a missing or different stored code gives "Invalid OTP" before the expiry is looked at |
| Accounts.ExpiryBoundary | app/routes/forgot_password.py:217-221 | a matching code is accepted iff now ≤ expiry (equality accepted) and the new password hashes; a later time gives "OTP has expired" |
| Accounts.WithNewPassword | app/routes/forgot_password.py:224-228 | the UPDATE sets the password and clears code and expiry on the rows with that id only |
| Accounts.RequestKeepsAccounts | app/routes/forgot_password.py:115-119 | a reset request changes no email or deletion flag, so lookups and uniqueness are preserved |
| Accounts.VerifyKeepsAccounts | app/routes/forgot_password.py:224-228 | a verify changes no email or deletion flag |
| Accounts.ReplayFails | app/routes/forgot_password.py:214-228 | after a successful verify, the same code is refused with "Invalid OTP" |
| Accounts.RequestThenVerify | app/routes/forgot_password.py:82-232 | the code stored by a successful request is accepted by a verify up to 15 minutes later |
| Login.TokenClaims | app/routes/login.py:97-101 | the token payload has exactly the keys id, email and role, holding the stored user's values |
| Login.CredentialsFirst | app/routes/login.py:75-76 | specifies `Login`: a missing email or password gives 400 without looking at the table |
| Login.UniformFailure | app/routes/login.py:82-94 | specifies `Login`: with both credentials given, "no such user" and "wrong password" give the identical 401 reply, and that reply arises from nothing else |
| Login.LoginSuccess | app/routes/login.py:82-111 | specifies `Login`: a successful login is for the first active user with the email whose hash accepts the password, with a token that signs; the token holds that user's id, email and role; the reply echoes id, name, email and role and has no password |
| Login.CrashCauses | app/routes/login.py:70-115 | specifies `Login`: the status is 200, 400, 401 or 500; the 500 (an exception escaping to Flask) happens iff both credentials are given, an active user has the email, and either the password check raises or it accepts and the token signing raises |
| Login.TokenOpensGate | app/routes/login.py:97-101 | a login token sent as `Bearer <token>` passes the gate when the decoder returns its claims and the id is non-zero, and the request context then holds the user's id, email and role |
| Login.ResetThenLogin | app/routes/forgot_password.py:221-232 | after a successful reset, logging in with the new password succeeds |
| Documents.Prompt | app/routes/documents.py:11-31 | the prompt is the fixed template with the CV text inserted |
| Documents.ProcessFile | app/routes/documents.py:83-111 | every file's entry carries that file's name |
| Documents.ExtractWithGemini | app/routes/documents.py:66-116 | the route's loop produces exactly the specified reply: 400 with no files, 500 with no key, else one entry per file |
| Documents.OneEntryPerFile | app/routes/documents.py:81-113 | there is one entry per uploaded file, in upload order, each under its file's name |
| Documents.FailureIsolated | app/routes/documents.py:107-111 | changing one file's outcome changes only that file's entry; a failure never affects the others |
| Documents.SpanParsed | app/routes/documents.py:96-104 | specifies `ProcessFile` on a reply: a reply without a `{`…`}` span gives "No valid JSON found in Gemini response."; extracted data is the parse of the span from the first `{` to the last `}` |
| Documents.PageTextAppend | app/routes/documents.py:90 | specifies `PageText`: no pages give the empty text, a single page is sent stripped (stripping again changes nothing), and one more page appends a space and that page stripped |
| RagEval.Groundedness | app/routes/test_rag.py:21-42 | groundedness always lies in [0, 1] |
| RagEval.GroundednessMeaning | app/routes/test_rag.py:21-42 | groundedness is exactly \|resp ∩ ctx\| / \|resp\| over the lowered, split, deduplicated, filtered token sets; it is 1 iff every counted answer token is in the context; 0 iff an input is empty or nothing is shared |
| RagEval.Relevance | app/routes/test_rag.py:44-64 | relevance always lies in [0, 1] |
| RagEval.RelevanceMeaning | app/routes/test_rag.py:44-64 | relevance is exactly \|q ∩ resp\| / \|q\|, with only the question filtered; it is 1 iff every counted question token is in the answer; 0 iff an input is empty or nothing is shared |
| RagEval.OverlapBounds | app/routes/test_rag.py:36-42 | an overlap ratio lies in [0, 1], equals 1 iff inclusion and 0 iff disjointness, so the `min(1.0, …)` never changes it |
| RagEval.Filtered | app/routes/test_rag.py:30-33 | the counted tokens are exactly those that are no stopword and longer than two characters |
| RagEval.RawTokens | app/routes/test_rag.py:27-28 | the token set is exactly the whitespace-split words of the lowered text |
| RagEval.TokensAreRuns | app/routes/test_rag.py:27-28 | a token is exactly a maximal run of non-whitespace characters of the lowered text |
| RagEval.TokensLowered | app/routes/test_rag.py:27 | no token holds an upper-case ASCII letter |
| RagEval.EvaluatorNoJson | app/routes/test_rag.py:102-115 | an evaluator reply without a `{…}` span gives "No JSON found in evaluation response" |
| RagEval.EvaluatorSpan | app/routes/test_rag.py:102-112 | specifies `CortexEvaluation`: otherwise the verdict is the parse of the first-`{`-to-last-`}` span, or "Failed to parse evaluation JSON" |
| RagEval.MergeStep | app/routes/test_rag.py:241-242 | an evaluator key already present among the results adds nothing |
| RagEval.MergeCortex | app/routes/test_rag.py:237-244 | the merge loop computes exactly the specified results, coherence and conversion failure (`Merged`) |
| RagEval.MergeKeepsOthers | app/routes/test_rag.py:241-242 | the merge writes only `cortex_` keys, so all other results keep their values, and nothing happens after a failed conversion |
| RagEval.MergeAdds | app/routes/test_rag.py:240-244 | an evaluator entry reached before any `float()` failure, whose key is not a result key at the start and is not `cortex_<k>` for the key `k` of an earlier entry, is stored under `cortex_<key>` with its value and stays there to the end of the loop (evaluator keys are distinct, as in a JSON object) |
| RagEval.MergeCoherence | app/routes/test_rag.py:238-244 | for any evaluator object whose merge ends without a `float()` failure, the stored coherence is `float` of the evaluator's coherence, or stays 0.0 when there is none |
| RagEval.LocalScoresKept | app/routes/test_rag.py:229-242 | specifies `Evaluation`: the evaluation always carries the locally computed groundedness and relevance; the evaluator's own scores never replace them |
| RagEval.ErrorAddsNothing | app/routes/test_rag.py:237-262 | specifies `Evaluation`: an evaluator answer with an `error` key adds no key; a row is stored, with coherence 0.0, exactly when the INSERT does not raise |
| Chats.ChatAt | app/routes/chats.py:16-20 | a lookup finds `chats[id]` iff id < length, else 404 "Chat not found" |
| Chats.ChatStore.CreateChat | app/routes/chats.py:10-14 | the chat is appended at the end, earlier chats are unchanged, and it is echoed back |
| Chats.ChatStore.GetChats | app/routes/chats.py:6-8 | get-all returns the list as it is |
| Chats.ChatStore.GetChatById | app/routes/chats.py:16-20 | the route answers as the lookup specifies |
| Chats.LookupAfterCreate | app/routes/chats.py:10-20 | after an append, old ids answer as before, the old length finds the new chat, and later ids are not found |
| Interviews.InterviewStore.CreateInterview | app/routes/interviews.py:6-10 | the interview is appended at the end and echoed back |
| Interviews.InterviewStore.UpdateInterview | app/routes/interviews.py:12-17 | an id within the list merges the request into that interview only and echoes it; otherwise 404 "Interview not found" and nothing changes |
| Interviews.UpdateValues | app/routes/interviews.py:15 | specifies `Update`: after `update`, request keys have the request's values and all other keys keep theirs |
| Interviews.UpdateKeepsOrder | app/routes/interviews.py:15 | `update` keeps the existing keys in place at the front |

## Left out

- Snowflake's own semantics are modelled only as far as bulk creation and resign need them:
  - the identity column: the ids of inserted rows are taken to count up from a given next value, in source order;
  - a row that several records with an id match: Snowflake raises for such a MERGE by default; the model lets the first of them update the row (a raising MERGE is a run that fails at the MERGE);
  - the column defaults of inserted rows: taken as not resigned, with no resign date and no `updated_at`; `created_at` is not modelled;
  - SELECTs without `ORDER BY` return rows in table order in the model;
  - the statements' SQL text, the JSON, VARIANT and BASE64 conversions of the MERGE source, and the unescaped quoting of emails in the SELECT (such an email makes the SELECT raise, a run that fails at the SELECT);
  - the stored employee columns are kept as the record they were written from.
- In bulk creation only the SQL statements, the connection and the commit raise; an exception from Python code inside the `try` (the chunk compiler, say) is not modelled.
- The outer `except` of bulk creation is left out. It covers a body that is not a JSON object, or records that are not dicts.
- The GET employee listing is left out; it is SQL text only.
- In resign, exceptions from the UPDATE, the DELETE or the commit propagate to Flask. They are left out.
- The chunk compiler's inputs:
  - experience descriptions are modelled as lists of strings, and non-list descriptions are not modelled;
  - list entries' fields are strings;
  - `promotion_years` is an integer.
- `lower()` is modelled on ASCII letters only. `split()` and `strip()` use Python's whitespace set, without Unicode normalisation.
- Login:
  - an exception from the SELECT is left out; like the modelled exceptions of the password check and the token signing, it escapes to Flask's 500;
  - the `print` of the stored password hash (app/routes/login.py:89) is left out: it writes to the server's output only.
- Auth:
  - JWT signature and expiry checking live inside the decoder parameter;
  - the request context starts with null fields. In Flask an unset `g` attribute is absent instead.
- Accounts:
  - bcrypt is a pair of parameters;
  - user ids are supplied by the caller of `CreateUser`, standing for the table's identity column;
  - Accounts.ActiveIndex: `fetchone()` on a SELECT without `ORDER BY` may return any matching row; the model takes the first in table order;
  - in user creation, only an exception at the INSERT is modelled; an exception at the uniqueness SELECT also gives 500 "Database error: …";
  - exceptions from the SELECT or UPDATE in the reset routes are left out (they give 500 "Server error: …" and roll back);
  - the mail body text is left out;
  - the request fields are modelled as strings; non-string JSON values are not.
- Documents:
  - the temporary file handling and the PDF loader are left out: the pages, or the loader's message, are part of each upload;
  - `json.loads` is a parameter, and so is the type of the parsed data.
- RAG:
  - the retrieval query, the answer prompt and the database connection are left out;
  - the stopword list is a parameter (it is loaded from the NLTK corpus at run time);
  - scores are exact reals, and the float conversion of the scores is not modelled;
  - the evaluator's JSON values are scalars;
  - the INSERT of the evaluation row is reduced to its possible error and the coherence it stores.
- Chats and interviews: JSON objects are lists of scalar-valued pairs. A body that is not a JSON object (for which `update` raises) is not modelled.
- Concurrency is not modelled anywhere: several requests updating the same lists or tables at the same time.
- The following are left out:
  - Google Drive upload;
  - analytics;
  - the single-append routes (companies, projects, clients, prompts, rag, docs);
  - the stub login blueprint;
  - the migration script;
  - app setup;
  - Swagger metadata.

## Findings

| source | as written | input that shows it | evidently intended | confidence | as-written member | corrected member |
|---|---|---|---|---|---|---|
| app/db.py:7-19 | the connection keeps the connector's default autocommit, so each statement of bulk creation is committed as it runs and the `conn.rollback()` calls (app/routes/employees.py:326, 340) undo nothing | a batch whose chunk INSERT (app/routes/employees.py:310) raises after the DELETE (app/routes/employees.py:280) has run: the affected employees are left with no chunks, and the MERGE stays applied | one transaction per request: a failure leaves both tables as they were | not executed | Employees.InsertFailureLosesChunks | Employees.FailureKeepsTables |
| app/routes/employees.py:269 | the action is "inserted" unless the email is already a key of `results_map`, which never holds a valid record's email before this loop | an existing employee posted with its own id and email: the MERGE updates the row, and the answer says "success (inserted)" | "updated" for a row the MERGE updated, "inserted" for a row it inserted | not executed | Employees.ExistingReportedInserted | Employees.IntendedActions |

The handler model keeps both behaviours as written: the autocommit setting is part of
each run (`Run.autocommit`), and `Recorded` labels rows as the code does.
`RecordedAsMerged` is the corrected labelling.
