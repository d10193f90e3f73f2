# pg-utils-web-adapter, modelled in Dafny

pg-utils-web-adapter is a small HTTP service that wraps the PostgreSQL client
tools. `/backup` runs `pg_dump` into a file under `/backups/`. `/restore?file=…`
checks that the backup file exists, asks `psql` whether the database exists,
creates it with `createdb` when it does not, and runs `pg_restore` (with
`--clean` when the database already existed). Both handlers take the connection
from the environment on GET (loaded once at startup) or from a JSON body on
POST. They answer with a JSON `actionResponse` (`status`, `action`,
`message`, `file`).

This project models `src/main.go`:
- the startup settings: `loadEnvSettings`, `getEnvVariableWithDefault`,
  `checkSettings`, and the `USE_DIR_STRUCTURE` switch;
- connection resolution: `GetConnectionConfig`, with `decodeJsonBody`'s
  error classification;
- the two handlers: `backupHandler` and `restoreHandler`;
- the tool helpers: `restoreDb`, `createDb`, `isDbExist`,
  `returnExecutionResult` and `executeWithOutput`;
- `fileExist`.

Modules:
- `Wrappers`: Option and Result.
- `Text`: Go's `strings.TrimLeft`, `TrimRight`, `TrimSpace` and `ToUpper`, and
  the `%d`/`%q` verbs of the decoder messages.
- `Responses`: status codes, messages and the response datatypes.
- `Connection`: settings and connection resolution.
- `Effects`: the trace of side effects, and `executeWithOutput`.
- `Commands`: the four command lines, `isDbExist`, `createDb` and `restoreDb`.
- `Handlers`: `returnExecutionResult`, `backupHandler` and `restoreHandler`.

The outside world enters as parameters:
- the environment: a `map<string, string>`;
- the result of running a command: `run: Invocation -> RunResult`;
- `os.Stat`: `stat: string -> StatResult`;
- `os.MkdirAll`: `mkdirOk: string -> bool`;
- the formatted clock reading: `ts: string`;
- the JSON decoder's two answers: `DecodeAnswer`.

A handler returns the last response it wrote and a trace of what it did: stat,
mkdir, exec, remove and respond events, in order. `Execs` and `Written` pick the
tool runs and the responses out of a trace. The interesting facts are about
those projections:
- which tools run, in which order, with which flags;
- which responses are written, and when the dump file is removed.

Behaviour of the code that the model keeps as written:
- When `os.MkdirAll` fails in the directory layout (src/main.go:136-141),
  `backupHandler` writes a 500 response and carries on running `pg_dump`, so
  two responses are written. net/http sends the status of the first one.
  `BackupTraceShape` and `BackupOutcome` state this.
- `restoreHandler` checks `/backups/` plus the file name with leading `/` and
  `.` characters stripped, but hands the file name as received to
  `pg_restore` (src/main.go:212, 231, 238). `CheckedPathIsNotRestoredName`
  proves the two always differ. `InnerTraversalIsKept` proves that a name
  starting with neither `/` nor `.` is checked unchanged, `..` segments
  included.
- The `psql -c` query is wrapped in literal double quotes (src/main.go:299).
  The model builds the argument exactly so.
- In the flat layout, `_` inside a host or database name can make two
  databases share one backup file. `FlatLayoutCanCollide` exhibits such a pair.
- `USE_DIR_STRUCTURE` is on exactly when its value is `true` in any letter
  case. No non-ASCII character upper-cases to T, R, U or E, so comparing after
  an ASCII-only upper-casing gives the same answer as Go's `strings.ToUpper`.

## Model

| member | source | states |
|---|---|---|
| Connection.CheckSettings | src/main.go:105-110 | no settings exactly when host, db or user is empty; otherwise the settings come back unchanged |
| Connection.GetEnvVariableWithDefault | src/main.go:112-118 | an unset or empty variable yields the default; a set one yields its value |
| Connection.LoadEnvSettings | src/main.go:94-103 | settings exist exactly when PG_HOST, PG_DB and PG_USER are non-empty; fields come from the PG_* variables; the port falls back to 5432 |
| Connection.UseDirStructure | src/main.go:79 | the directory layout is on exactly when USE_DIR_STRUCTURE has four letters spelling "true" in any case |
| Connection.ClassifyError | src/main.go:387-414 | syntax, unexpected-EOF, type and empty-body errors give 400; the body-too-large text gives 413; any other decoder error is left unclassified |
| Connection.DecodeJsonBody | src/main.go:382-424 | success exactly when the first value decodes and the second read hits EOF; any second read other than end of input (a second value, or an oversized tail) gives 400 "single JSON object"; 413 exactly when the first decode reports the body-too-large error; unclassified errors keep their text |
| Connection.GetConnectionConfig | src/main.go:162-200 | every refusal is an error response with a non-200 status, the handler's action and no file |
| Connection.ConnectionConfigCases | src/main.go:162-200 | GET without settings gives 501, GET with settings uses them; POST succeeds exactly when the body decodes to a connection with host, db and user, otherwise 400/413 or 500 "Internal Server Error"; other methods give 405 |
| Connection.ResolvedConnectionIsSufficient | src/main.go:166-191 | with the startup settings, every resolved connection has host, db and user; a GET with PG_PORT unset uses port 5432 |
| Effects.PasswordEnv | src/main.go:358-360 | the extra environment is PGPASSWORD=<pass> for a non-empty password and empty otherwise |
| Effects.ExecuteWithOutput | src/main.go:355-380 | runs the tool with the given arguments and password environment; fails exactly when the run fails, then with the "Can't execute app" diagnostic; on success the output or "" as asked |
| Commands.BackupArgs | src/main.go:148-157 | the pg_dump line: connection flags, -Fc --no-password -v, the database, -f and the file |
| Commands.CreateDbArgs | src/main.go:272-281 | the createdb line: connection flags, no prompt, template0, UTF8, the database name last |
| Commands.ExistsQueryArgs | src/main.go:292-300 | the psql line: connection flags, --no-password --tuples-only --no-align, then -c and the quoted catalog query |
| Commands.ArgsFromPublicValues | src/main.go:148-157 | the pg_dump, createdb and psql lines hold only fixed flags and the host, port, user, database, file name and query |
| Commands.ArgsIgnorePassword | src/main.go:358-360 | no command line depends on the password, which reaches the tools only through PGPASSWORD |
| Commands.RestoreArgsFlags | src/main.go:250-261 | a pg_restore line holds --clean exactly when asked for (unless a connection value is itself "--clean"), and only fixed flags and the host, port, user, database and file name |
| Commands.RestoreDb | src/main.go:249-269 | runs pg_restore with the connection flags, --clean exactly when asked, then -d, the database and the file as given; fails exactly when the run fails, with "restoreDb execution error" and the diagnostic |
| Commands.CreateDb | src/main.go:271-289 | runs createdb on its command line; fails exactly when the run fails, with "createdb execution error" and the diagnostic |
| Commands.IsDbExist | src/main.go:291-308 | runs the catalog query; an error exactly when psql fails; otherwise whether the trimmed output is "1" |
| Commands.DbFoundIffPaddedOne | src/main.go:307 | the database counts as existing exactly when psql succeeded and printed a single "1" surrounded only by white space |
| Text.TrimLeftDropsCutPrefix | src/main.go:212 | strings.TrimLeft drops a prefix made only of cut-set characters, and what remains does not start with one |
| Text.TrimRightDropsCutSuffix | src/main.go:307 | the right trim drops a suffix made only of cut-set characters, and what remains does not end with one |
| Text.TrimSpaceEnds | src/main.go:307 | strings.TrimSpace leaves a string that neither starts nor ends with white space |
| Text.TrimSpaceIsOne | src/main.go:307 | TrimSpace gives "1" exactly when the text is white space, a single "1", then white space |
| Text.ToUpperAscii | src/main.go:79 | upper-casing keeps the length, maps a-z to A-Z and keeps every other character |
| Text.NatToDecimal | src/main.go:393 | %d writes at least one digit, only digits, and no leading zero |
| Text.DecimalRoundTrip | src/main.go:393 | reading back the digits %d writes gives the number printed |
| Text.Quote | src/main.go:401 | %q of a field name is the name between two double quotes |
| Handlers.BackupFileName | src/main.go:133-146 | the dump file lies under /backups/ and ends in <ts>.dump: /backups/<host>/<db>/<ts>.dump in the directory layout, /backups/<host>_<db>_<ts>.dump otherwise |
| Handlers.DistinctTimestampsDistinctFiles | src/main.go:143-145 | two timestamps of one width that differ never name the same file for one database |
| Handlers.FlatLayoutCanCollide | src/main.go:145 | in the flat layout, host "a_b" with db "c" and host "a" with db "b_c" share a dump file |
| Handlers.ExecutionTrace | src/main.go:315-324 | returnExecutionResult runs exactly one tool and writes exactly one response; it removes the file exactly when the run failed and there is a file |
| Handlers.ReturnExecutionResult | src/main.go:310-325 | the response and events are those of the tool's result: the run, the removal after a failure with a file, then the response |
| Handlers.ExecutionResponseReportsRun | src/main.go:310-325 | 200 exactly when the tool succeeded; only success names the file; failure is 500 with the diagnostic; the success message is the output or "" as asked |
| Handlers.MkdirTrace | src/main.go:134-141 | the directory step runs no tool and removes nothing; it writes the 500 "Unknown IO error" response exactly when MkdirAll fails |
| Handlers.BackupSteps | src/main.go:133-159 | after resolution: the directory step, then pg_dump on the named file, reported with the success output omitted |
| Handlers.BackupHandler | src/main.go:125-160 | a refused connection writes only its error response; otherwise the backup steps follow |
| Handlers.MkdirThenExecution | src/main.go:134-159 | the directory step followed by the execution step runs only the tool; writes the MkdirAll failure response, if any, before the tool's; begins with the mkdir in the directory layout and with the tool run otherwise; removes the file exactly when the run failed |
| Handlers.BackupTraceShape | src/main.go:133-159 | a backup runs pg_dump exactly once, after MkdirAll in the directory layout; a MkdirAll failure adds a 500 response before the dump's; the dump file is removed exactly when pg_dump fails |
| Handlers.BackupOutcome | src/main.go:133-159 | the first response of a backup is 200 exactly when pg_dump succeeded and MkdirAll did not fail; a 200 names the dump file, a failure is 500 with no file |
| Handlers.BackupPath | src/main.go:212 | the checked path is /backups/ followed by a suffix of the file name that starts with neither '/' nor '.', and every character dropped from the front is '/' or '.' |
| Handlers.CheckedPathIsNotRestoredName | src/main.go:212-238 | the path checked for existence is never the name handed to pg_restore |
| Handlers.InnerTraversalIsKept | src/main.go:212 | a name that starts with neither '/' nor '.' is checked unchanged, '..' segments included |
| Handlers.FileExist | src/main.go:426-435 | true exactly for an existing file; an error exactly when stat fails for another reason than absence |
| Handlers.RunBefore | src/main.go:223-246 | running a tool in front of a stage of tool runs and one final response keeps that shape, with the run first |
| Handlers.RestoreAndReport | src/main.go:241-246 | the trace is exactly the pg_restore run (--clean as asked) and then one response: 200 "ok" on success or 500 with the restoreDb error |
| Handlers.CreateAndRestore | src/main.go:232-238 | only tool runs and then one response: createdb first; on its failure a 500 response; otherwise pg_restore without --clean and its report |
| Handlers.RestoreSteps | src/main.go:223-246 | only tool runs and then one response: the exists query first; 500 on its failure; pg_restore --clean for an existing database; createdb then pg_restore otherwise |
| Handlers.RestoreFromBackup | src/main.go:218-246 | a refused connection writes only its error response and runs no tool; otherwise only tool runs and then one response, as the restore steps say |
| Handlers.RestoreHandler | src/main.go:202-247 | an empty name is 400 with no other event; the stripped path is checked first, and a missing file is 400; no tool runs unless the file is found and the connection resolves; then the stat, the restore steps' tool runs and one final response, and no other event; never naming a file |
| Handlers.AdmittedRestoreShape | src/main.go:212-246 | an admitted restore's trace is the stat of the backup path, then the tool runs in order, then the response |
| Handlers.AdmittedRestoreTouchesNoFile | src/main.go:212-246 | an admitted restore never removes or creates a file and stats nothing after its first event |
| Handlers.ExistingDatabaseIsCleaned | src/main.go:230-231 | for an existing database createdb never runs and the last run is pg_restore with --clean |
| Handlers.MissingDatabaseIsCreatedFirst | src/main.go:232-238 | for a missing database createdb is the second run; pg_restore can only be the third and runs without --clean; a createdb failure ends the request with 500 |
| Handlers.RestoreOkIffAllSucceeded | src/main.go:223-246 | a restore answers 200 exactly when every tool run succeeded and the last was pg_restore; 200 is the bare "ok" response, anything else is a 500 error |

## Left out

- HTTP bootstrap, routing and `statusHandler` (src/main.go:72-92, 120-123): not modelled; they only wire the handlers to URLs.
- `checkPgUtils` and `execute` (src/main.go:342-353): not modelled; this startup check only exits the process.
- `writeResponse` and `writeInternalServerErrorResponse` (src/main.go:327-340): a write is one `Respond` event; the JSON encoding and the Content-Type header are not modelled.
- JSON parsing and `http.MaxBytesReader`: not modelled; the decoder's two answers are an input, and only how decodeJsonBody classifies them is modelled.
- Process execution (`exec.Command`, `CombinedOutput`), `os.Stat`, `os.MkdirAll`, `os.Remove` and the process environment are oracle parameters. Their answers do not depend on what ran before in the same request.
- `time.Now().Format(...)` is the `ts` parameter; its format is not modelled.
- Logging, and the `printOutput` branch of `executeWithOutput` (src/main.go:365, 369-373): left out, since they only print.
- The package globals `pgEnvSet` and `useDirStructure` are parameters of the handlers; concurrent requests are not modelled.
- Text.ToUpperAscii: maps only ASCII letters, unlike Go's Unicode `strings.ToUpper`; this does not change the comparison with "TRUE".
- Text.Quote: does not model `%q` escaping of quotes, backslashes or non-printable characters; the field names of the connection struct contain none.
- Connection.ClassifyError: offsets are `nat`, while Go's are `int64` (never negative for these errors).
