/**
 * The two request handlers that do work: backupHandler (backup file naming,
 * pg_dump, returnExecutionResult) and restoreHandler (the linear restore state
 * machine). Each returns the trace of what it did; every Respond event is one
 * writeResponse call, and net/http sends the status code of the first one.
 */
module Handlers {
  import opened Wrappers
  import opened Text
  import opened Responses
  import opened Connection
  import opened Effects
  import opened Commands

  const BackupsRoot := "/backups/"

  /** The per-host, per-database directory of the directory layout. */
  function BackupDir(host: string, db: string): (dir: string)
  {
    BackupsRoot + host + "/" + db
  }

  /**
   * The dump file of a backup: /backups/<host>/<db>/<ts>.dump in the directory
   * layout, /backups/<host>_<db>_<ts>.dump otherwise.
   */
  function BackupFileName(host: string, db: string, ts: string, useDirStructure: bool): (name: string)
    ensures |name| > |BackupsRoot| && name[..|BackupsRoot|] == BackupsRoot
    ensures |name| >= |ts| + 5 && name[|name| - |ts| - 5..] == ts + ".dump"
    ensures useDirStructure ==> name == BackupDir(host, db) + "/" + ts + ".dump"
    ensures !useDirStructure ==> name == BackupsRoot + host + "_" + db + "_" + ts + ".dump"
    ensures name != ""
  {
    if useDirStructure then BackupDir(host, db) + "/" + ts + ".dump"
    else BackupsRoot + host + "_" + db + "_" + ts + ".dump"
  }

  /** Two backups of one database with different timestamps of one format never share a file. */
  lemma DistinctTimestampsDistinctFiles(host: string, db: string, ts1: string, ts2: string, useDirStructure: bool)
    requires |ts1| == |ts2| && ts1 != ts2
    ensures BackupFileName(host, db, ts1, useDirStructure) != BackupFileName(host, db, ts2, useDirStructure)
  {
    assert (ts1 + ".dump")[..|ts1|] == ts1;
    assert (ts2 + ".dump")[..|ts2|] == ts2;
  }

  /** In the flat layout an underscore in a host or database name can make two databases share a file. */
  lemma FlatLayoutCanCollide(ts: string)
    ensures BackupFileName("a_b", "c", ts, false) == BackupFileName("a", "b_c", ts, false)
  {
  }

  /** The response returnExecutionResult writes for a tool run with result `r`. */
  function ExecutionResponse(actionName: string, app: string, r: RunResult, omitSuccessfulOutput: bool,
                             fileName: string): (resp: Response)
  {
    if r.err.None? then
      Response(HttpOk, ActionResponse(StatusOk, actionName, if omitSuccessfulOutput then "" else r.output, fileName))
    else
      ErrorResponse(HttpInternalServerError, actionName, Diagnostic(app, r.err.value, r.output))
  }

  /**
   * The events of returnExecutionResult: the tool run, the removal of the file
   * when the run failed and there is a file, and the response.
   */
  function ExecutionTrace(call: Invocation, r: RunResult, fileName: string, resp: Response): (t: seq<Event>)
    ensures Execs(t) == [call] && Written(t) == [resp]
    ensures RemoveFile(fileName) in t <==> r.err.Some? && fileName != ""
  {
    Record([], Exec(call));
    Record([Exec(call)], RemoveFile(fileName));
    Record([Exec(call), RemoveFile(fileName)], Respond(resp));
    Record([Exec(call)], Respond(resp));
    assert [] + [Exec(call)] == [Exec(call)];
    assert [Exec(call)] + [RemoveFile(fileName)] == [Exec(call), RemoveFile(fileName)];
    assert [Exec(call), RemoveFile(fileName)] + [Respond(resp)] == [Exec(call), RemoveFile(fileName), Respond(resp)];
    assert [Exec(call)] + [Respond(resp)] == [Exec(call), Respond(resp)];
    if r.err.Some? && fileName != "" then [Exec(call), RemoveFile(fileName), Respond(resp)]
    else [Exec(call), Respond(resp)]
  }

  /**
   * returnExecutionResult: runs the tool; success gives 200/ok with the file,
   * failure 500/error with no file and removes the file when there is one.
   * The message is the invoker's output either way.
   */
  method ReturnExecutionResult(actionName: string, app: string, args: seq<string>, pgPassword: string,
                               omitSuccessfulOutput: bool, fileName: string, run: Invocation -> RunResult)
    returns (resp: Response, trace: seq<Event>)
    ensures resp == ExecutionResponse(actionName, app, run(Call(app, args, pgPassword)), omitSuccessfulOutput, fileName)
    ensures trace == ExecutionTrace(Call(app, args, pgPassword), run(Call(app, args, pgPassword)), fileName, resp)
  {
    var status := StatusError;
    var httpStatus := HttpInternalServerError;
    var resultFile := "";

    var res, out, inv := ExecuteWithOutput(app, args, pgPassword, omitSuccessfulOutput, run);
    assert inv == Call(app, args, pgPassword);
    trace := [Exec(inv)];
    if res {
      status := StatusOk;
      httpStatus := HttpOk;
      resultFile := fileName;
    } else if fileName != "" {
      trace := trace + [RemoveFile(fileName)];
    }

    resp := Response(httpStatus, ActionResponse(status, actionName, out, resultFile));
    trace := trace + [Respond(resp)];
  }

  /**
   * The status is 200 exactly when the tool succeeded; only a success names the
   * file, and a failure carries the tool's diagnostic as its message.
   */
  lemma ExecutionResponseReportsRun(actionName: string, app: string, r: RunResult, omitSuccessfulOutput: bool,
                                    fileName: string)
    ensures var resp := ExecutionResponse(actionName, app, r, omitSuccessfulOutput, fileName);
      && (resp.code == HttpOk <==> r.err.None?)
      && (resp.code == HttpOk ==> resp.body.status == StatusOk && resp.body.file == fileName)
      && (resp.code != HttpOk ==> resp.code == HttpInternalServerError && resp.body.status == StatusError
                                  && resp.body.file == "" && resp.body.message == Diagnostic(app, r.err.value, r.output))
      && (r.err.None? && omitSuccessfulOutput ==> resp.body.message == "")
      && (r.err.None? && !omitSuccessfulOutput ==> resp.body.message == r.output)
      && resp.body.action == actionName
  {
  }

  /** The dump file of a backup with connection `c`. */
  function DumpFile(c: PgConnection, ts: string, useDirStructure: bool): (name: string)
  {
    BackupFileName(c.host, c.db, ts, useDirStructure)
  }

  /** The pg_dump invocation of a backup with connection `c`. */
  function DumpCall(c: PgConnection, ts: string, useDirStructure: bool): (inv: Invocation)
  {
    Call(PgDump, BackupArgs(c, DumpFile(c, ts, useDirStructure)), c.pass)
  }

  /** The response backupHandler writes when MkdirAll fails. */
  const DirFailure := ErrorResponse(HttpInternalServerError, "backup", MessageIoError)

  /** The events of the directory layout: MkdirAll, then a 500 response when it fails. */
  function MkdirTrace(useDirStructure: bool, dir: string, created: bool): (t: seq<Event>)
    ensures Execs(t) == []
    ensures Written(t) == if useDirStructure && !created then [DirFailure] else []
    ensures forall f :: RemoveFile(f) !in t
  {
    Record([], MakeDirs(dir));
    Record([MakeDirs(dir)], Respond(DirFailure));
    assert [] + [MakeDirs(dir)] == [MakeDirs(dir)];
    assert [MakeDirs(dir)] + [Respond(DirFailure)] == [MakeDirs(dir), Respond(DirFailure)];
    if !useDirStructure then []
    else if created then [MakeDirs(dir)]
    else [MakeDirs(dir), Respond(DirFailure)]
  }

  /**
   * The trace and last response of backupHandler once the connection is known:
   * MkdirAll first in the directory layout (a failure writes a 500 response and
   * carries on), then one pg_dump run whose result returnExecutionResult reports.
   */
  predicate BackedUpWith(c: PgConnection, useDirStructure: bool, ts: string, mkdirOk: string -> bool,
                         run: Invocation -> RunResult, trace: seq<Event>, resp: Response)
  {
    var dump := DumpCall(c, ts, useDirStructure);
    var dir := BackupDir(c.host, c.db);
    && trace == MkdirTrace(useDirStructure, dir, mkdirOk(dir)) +
                ExecutionTrace(dump, run(dump), DumpFile(c, ts, useDirStructure), resp)
    && resp == ExecutionResponse("backup", PgDump, run(dump), true, DumpFile(c, ts, useDirStructure))
  }

  /** The steps of backupHandler after connection resolution: naming, MkdirAll, pg_dump. */
  method BackupSteps(c: PgConnection, useDirStructure: bool, ts: string, mkdirOk: string -> bool,
                     run: Invocation -> RunResult)
    returns (resp: Response, trace: seq<Event>)
    ensures BackedUpWith(c, useDirStructure, ts, mkdirOk, run, trace, resp)
  {
    var actionName := "backup";
    trace := [];
    var fileName: string;
    if useDirStructure {
      var path := BackupDir(c.host, c.db);
      trace := trace + [MakeDirs(path)];
      if !mkdirOk(path) {
        trace := trace + [Respond(ErrorResponse(HttpInternalServerError, actionName, MessageIoError))];
      }
      fileName := path + "/" + ts + ".dump";
    } else {
      fileName := BackupsRoot + c.host + "_" + c.db + "_" + ts + ".dump";
    }
    assert fileName == DumpFile(c, ts, useDirStructure);
    assert trace == MkdirTrace(useDirStructure, BackupDir(c.host, c.db), mkdirOk(BackupDir(c.host, c.db)));

    var args := BackupArgs(c, fileName);
    var tail;
    resp, tail := ReturnExecutionResult(actionName, PgDump, args, c.pass, true, fileName, run);
    trace := trace + tail;
  }

  /**
   * backupHandler: resolves the connection, then takes the steps BackedUpWith
   * describes. `resp` is the last response written.
   */
  method BackupHandler(httpMethod: string, envSet: Option<PgConnection>, body: DecodeAnswer,
                       useDirStructure: bool, ts: string, mkdirOk: string -> bool, run: Invocation -> RunResult)
    returns (resp: Response, trace: seq<Event>)
    ensures var cfg := GetConnectionConfig(httpMethod, envSet, body, "backup");
      cfg.Failure? ==> resp == cfg.error && trace == [Respond(resp)]
    ensures var cfg := GetConnectionConfig(httpMethod, envSet, body, "backup");
      cfg.Success? ==> BackedUpWith(cfg.value, useDirStructure, ts, mkdirOk, run, trace, resp)
  {
    var actionName := "backup";
    var cfg := GetConnectionConfig(httpMethod, envSet, body, actionName);
    if cfg.Failure? {
      resp := cfg.error;
      return resp, [Respond(resp)];
    }
    resp, trace := BackupSteps(cfg.value, useDirStructure, ts, mkdirOk, run);
  }

  /** The filters of a directory step followed by an execution step. */
  lemma MkdirThenExecution(useDirStructure: bool, dir: string, created: bool, call: Invocation, r: RunResult,
                           file: string, resp: Response)
    ensures var t := MkdirTrace(useDirStructure, dir, created) + ExecutionTrace(call, r, file, resp);
      && Execs(t) == [call]
      && Written(t) == (if useDirStructure && !created then [DirFailure, resp] else [resp])
      && t[0] == (if useDirStructure then MakeDirs(dir) else Exec(call))
      && (RemoveFile(file) in t <==> r.err.Some? && file != "")
  {
    var head := MkdirTrace(useDirStructure, dir, created);
    var tail := ExecutionTrace(call, r, file, resp);
    ExecsAppend(head, tail);
    WrittenAppend(head, tail);
    assert RemoveFile(file) !in head;
  }

  /**
   * A backup runs pg_dump exactly once, after MkdirAll in the directory layout;
   * a MkdirAll failure writes a 500 response before the dump result is written,
   * and the dump file is removed exactly when pg_dump fails.
   */
  lemma BackupTraceShape(c: PgConnection, useDirStructure: bool, ts: string, mkdirOk: string -> bool,
                         run: Invocation -> RunResult, trace: seq<Event>, resp: Response)
    requires BackedUpWith(c, useDirStructure, ts, mkdirOk, run, trace, resp)
    ensures Execs(trace) == [DumpCall(c, ts, useDirStructure)]
    ensures useDirStructure ==> trace[0] == MakeDirs(BackupDir(c.host, c.db))
    ensures !useDirStructure ==> trace[0] == Exec(DumpCall(c, ts, useDirStructure))
    ensures useDirStructure && !mkdirOk(BackupDir(c.host, c.db)) ==> Written(trace) == [DirFailure, resp]
    ensures !(useDirStructure && !mkdirOk(BackupDir(c.host, c.db))) ==> Written(trace) == [resp]
    ensures RemoveFile(DumpFile(c, ts, useDirStructure)) in trace <==> run(DumpCall(c, ts, useDirStructure)).err.Some?
  {
    var dump := DumpCall(c, ts, useDirStructure);
    var dir := BackupDir(c.host, c.db);
    MkdirThenExecution(useDirStructure, dir, mkdirOk(dir), dump, run(dump), DumpFile(c, ts, useDirStructure), resp);
  }

  /**
   * The first response of a backup is 200 exactly when pg_dump succeeded and
   * MkdirAll did not fail; a successful dump names its file, a failed one
   * answers 500 with no file.
   */
  lemma BackupOutcome(c: PgConnection, useDirStructure: bool, ts: string, mkdirOk: string -> bool,
                      run: Invocation -> RunResult, trace: seq<Event>, resp: Response)
    requires BackedUpWith(c, useDirStructure, ts, mkdirOk, run, trace, resp)
    ensures Written(trace)[0].code == HttpOk <==>
      run(DumpCall(c, ts, useDirStructure)).err.None? && !(useDirStructure && !mkdirOk(BackupDir(c.host, c.db)))
    ensures resp.code == HttpOk ==> resp.body.status == StatusOk && resp.body.file == DumpFile(c, ts, useDirStructure)
    ensures resp.code != HttpOk ==> resp.code == HttpInternalServerError && resp.body.file == ""
  {
    BackupTraceShape(c, useDirStructure, ts, mkdirOk, run, trace, resp);
  }

  /** The restore file name with leading '/' and '.' characters stripped. */
  const TraversalCutset: set<char> := {'/', '.'}

  /** The path restoreHandler checks: the stripped name under /backups/. */
  function BackupPath(file: string): (path: string)
    ensures |path| >= |BackupsRoot| && path[..|BackupsRoot|] == BackupsRoot
    ensures |path| > |BackupsRoot| ==> path[|BackupsRoot|] != '/' && path[|BackupsRoot|] != '.'
    ensures var rest := path[|BackupsRoot|..]; |rest| <= |file| && rest == file[|file| - |rest|..]
    ensures var rest := path[|BackupsRoot|..]; forall i :: 0 <= i < |file| - |rest| ==> file[i] in TraversalCutset
  {
    TrimLeftDropsCutPrefix(file, TraversalCutset);
    BackupsRoot + TrimLeft(file, TraversalCutset)
  }

  /**
   * The path whose existence is checked is never the name handed to
   * pg_restore, which receives the request's file as it came.
   */
  lemma CheckedPathIsNotRestoredName(file: string)
    ensures BackupPath(file) != file
  {
    if BackupPath(file) == file {
      assert file[..|BackupsRoot|] == BackupsRoot;
      TrimLeftStopsAt(file, TraversalCutset, 1);
    }
  }

  /**
   * A name that starts with neither '/' nor '.' is checked as it is: '..'
   * segments further in are not removed.
   */
  lemma InnerTraversalIsKept(file: string)
    requires file != [] && file[0] != '/' && file[0] != '.'
    ensures BackupPath(file) == BackupsRoot + file
  {
    TrimLeftStopsAt(file, TraversalCutset, 0);
  }

  /** fileExist: (true, nil) for an existing file, (false, nil) for a missing one, the error otherwise. */
  function FileExist(st: StatResult): (r: (bool, Option<string>))
    ensures r.0 <==> st == Present
    ensures r.1.Some? <==> st.StatFailed?
    ensures st.StatFailed? ==> r.1 == Some(st.message)
  {
    match st
    case Present => (true, None)
    case Absent => (false, None)
    case StatFailed(message) => (false, Some(message))
  }

  /** The restore request has a file name whose stripped path exists under /backups/. */
  predicate BackupFound(file: string, stat: string -> StatResult)
  {
    file != "" && stat(BackupPath(file)) == Present
  }

  /** The response restoreHandler writes for the result of its last pg_restore run. */
  predicate RestoreReported(resp: Response, r: RunResult)
  {
    && (r.err.None? ==> resp == OkResponse("restore"))
    && (r.err.Some? ==> resp == ErrorResponse(HttpInternalServerError, "restore", Failed(RestoreFailure, PgRestore, r)))
  }

  /** The connection a restore request resolves to. */
  function RestoreConfig(httpMethod: string, envSet: Option<PgConnection>, body: DecodeAnswer): (r: Result<PgConnection, Response>)
  {
    GetConnectionConfig(httpMethod, envSet, body, "restore")
  }

  /** The request passed every check that comes before the first tool runs. */
  predicate Admitted(file: string, httpMethod: string, envSet: Option<PgConnection>, body: DecodeAnswer,
                     stat: string -> StatResult)
  {
    BackupFound(file, stat) && RestoreConfig(httpMethod, envSet, body).Success?
  }

  /** The exists query of isDbExist for connection `c`. */
  function QueryCall(c: PgConnection): (inv: Invocation)
  {
    Call(PSql, ExistsQueryArgs(c), c.pass)
  }

  /** The createdb invocation of createDb for connection `c`. */
  function CreateCall(c: PgConnection): (inv: Invocation)
  {
    Call(PgCreateDb, CreateDbArgs(c), c.pass)
  }

  /** A trace of tool runs followed by one response, and no other event. */
  predicate RunsThenResponds(trace: seq<Event>, resp: Response)
  {
    trace == ExecEvents(Execs(trace)) + [Respond(resp)]
  }

  /** Running one more tool before a stage keeps the shape and adds the run in front. */
  lemma RunBefore(inv: Invocation, tail: seq<Event>, resp: Response)
    requires RunsThenResponds(tail, resp)
    ensures RunsThenResponds([Exec(inv)] + tail, resp)
    ensures Execs([Exec(inv)] + tail) == [inv] + Execs(tail)
    ensures Written([Exec(inv)] + tail) == Written(tail)
  {
    var runs := Execs(tail);
    Record([], Exec(inv));
    ExecsAppend([Exec(inv)], tail);
    WrittenAppend([Exec(inv)], tail);
    ExecEventsAppend([inv], runs);
    assert ExecEvents([inv]) == [Exec(inv)];
    assert [Exec(inv)] + tail == ExecEvents([inv]) + ExecEvents(runs) + [Respond(resp)];
  }

  /**
   * Once admitted, a restore stats the backup path first, writes its one
   * response last and only runs tools in between.
   */
  lemma AdmittedRestoreShape(path: string, runs: seq<Invocation>, trace: seq<Event>, resp: Response)
    requires trace == [StatFile(path)] + ExecEvents(runs) + [Respond(resp)]
    ensures |trace| == |runs| + 2
    ensures trace[0] == StatFile(path) && trace[|trace| - 1] == Respond(resp)
    ensures forall j :: 0 <= j < |runs| ==> trace[j + 1] == Exec(runs[j])
  {
    var mid := ExecEvents(runs);
    EnclosedEvents(StatFile(path), mid, Respond(resp), trace);
  }

  /** The events of a trace made of a first event, a middle stretch and a last event. */
  lemma EnclosedEvents(first: Event, mid: seq<Event>, last: Event, trace: seq<Event>)
    requires trace == [first] + mid + [last]
    ensures |trace| == |mid| + 2 && trace[0] == first && trace[|trace| - 1] == last
    ensures forall j :: 0 <= j < |mid| ==> trace[j + 1] == mid[j]
  {
    forall j | 0 <= j < |mid|
      ensures trace[j + 1] == mid[j]
    {
      assert ([first] + mid)[j + 1] == mid[j];
    }
  }

  /** An admitted restore never removes or creates a file, and checks no path but the backup's. */
  lemma AdmittedRestoreTouchesNoFile(path: string, runs: seq<Invocation>, trace: seq<Event>, resp: Response)
    requires trace == [StatFile(path)] + ExecEvents(runs) + [Respond(resp)]
    ensures forall i :: 0 <= i < |trace| ==> !trace[i].RemoveFile? && !trace[i].MakeDirs?
    ensures forall i :: 0 <= i < |trace| && trace[i].StatFile? ==> i == 0
  {
    AdmittedRestoreShape(path, runs, trace, resp);
    forall i | 0 <= i < |trace|
      ensures !trace[i].RemoveFile? && !trace[i].MakeDirs? && (trace[i].StatFile? ==> i == 0)
    {
      if 0 < i < |trace| - 1 {
        assert trace[(i - 1) + 1] == Exec(runs[i - 1]);
      }
    }
  }

  /** Checking the backup path before a stage puts the stat first and leaves the runs as they are. */
  lemma StatBefore(path: string, tail: seq<Event>, resp: Response)
    requires RunsThenResponds(tail, resp)
    ensures Execs([StatFile(path)] + tail) == Execs(tail)
    ensures [StatFile(path)] + tail == [StatFile(path)] + ExecEvents(Execs(tail)) + [Respond(resp)]
  {
    Record([], StatFile(path));
    ExecsAppend([StatFile(path)], tail);
  }

  /** One pg_restore run (with --clean exactly when `cleanDb`) and the response reporting it. */
  predicate RestoredOnce(c: PgConnection, file: string, cleanDb: bool, run: Invocation -> RunResult,
                         execs: seq<Invocation>, resp: Response)
  {
    |execs| == 1 && IsRestoreCall(execs[0], c, file, cleanDb) && RestoreReported(resp, run(execs[0]))
  }

  /** createdb first; on its failure a 500 response, otherwise pg_restore without --clean. */
  predicate CreatedThenRestored(c: PgConnection, file: string, run: Invocation -> RunResult,
                                execs: seq<Invocation>, resp: Response)
  {
    var created := run(CreateCall(c));
    && |execs| >= 1 && execs[0] == CreateCall(c)
    && if created.err.Some? then
         execs == [CreateCall(c)] &&
         resp == ErrorResponse(HttpInternalServerError, "restore", Failed(CreateFailure, PgCreateDb, created))
       else
         RestoredOnce(c, file, false, run, execs[1..], resp)
  }

  /**
   * The tool runs and the response of restoreHandler once the connection is
   * known: the exists query first; on its failure a 500 response; on an
   * existing database pg_restore with --clean; otherwise createdb, and on its
   * success pg_restore without --clean.
   */
  predicate RestoredWith(c: PgConnection, file: string, run: Invocation -> RunResult,
                         execs: seq<Invocation>, resp: Response)
  {
    var found := run(QueryCall(c));
    && |execs| >= 1 && execs[0] == QueryCall(c)
    && if found.err.Some? then
         execs == [QueryCall(c)] &&
         resp == ErrorResponse(HttpInternalServerError, "restore", Failed(ExistsFailure, PSql, found))
       else if DbFound(found) then
         RestoredOnce(c, file, true, run, execs[1..], resp)
       else
         CreatedThenRestored(c, file, run, execs[1..], resp)
  }

  /** The last step of restoreHandler: one pg_restore run and the response reporting it. */
  method RestoreAndReport(c: PgConnection, file: string, cleanDb: bool, run: Invocation -> RunResult)
    returns (resp: Response, trace: seq<Event>)
    ensures Written(trace) == [resp]
    ensures resp.body.action == "restore" && resp.body.file == ""
    ensures RestoredOnce(c, file, cleanDb, run, Execs(trace), resp)
    ensures RunsThenResponds(trace, resp)
  {
    var err, restore := RestoreDb(c, file, cleanDb, run);
    if err.Some? {
      resp := ErrorResponse(HttpInternalServerError, "restore", err.value);
    } else {
      resp := OkResponse("restore");
    }
    Record([], Exec(restore));
    Record([Exec(restore)], Respond(resp));
    trace := [Exec(restore), Respond(resp)];
    assert ExecEvents([restore]) == [Exec(restore)];
    assert trace == [Exec(restore)] + [Respond(resp)];
  }

  /** The branch of restoreHandler for a missing database: createDb, then restoreDb without --clean. */
  method CreateAndRestore(c: PgConnection, file: string, run: Invocation -> RunResult)
    returns (resp: Response, trace: seq<Event>)
    ensures Written(trace) == [resp]
    ensures resp.body.action == "restore" && resp.body.file == ""
    ensures CreatedThenRestored(c, file, run, Execs(trace), resp)
    ensures RunsThenResponds(trace, resp)
  {
    var err, create := CreateDb(c, run);
    Record([], Exec(create));
    trace := [Exec(create)];
    if err.Some? {
      resp := ErrorResponse(HttpInternalServerError, "restore", err.value);
      Record(trace, Respond(resp));
      trace := trace + [Respond(resp)];
      assert ExecEvents([create]) == [Exec(create)];
      assert trace == [Exec(create)] + [Respond(resp)];
      return;
    }
    var tail;
    resp, tail := RestoreAndReport(c, file, false, run);
    RunBefore(create, tail, resp);
    trace := trace + tail;
    assert Execs(trace)[1..] == Execs(tail);
  }

  /** The steps of restoreHandler after connection resolution: exists query, then create and restore. */
  method RestoreSteps(c: PgConnection, file: string, run: Invocation -> RunResult)
    returns (resp: Response, trace: seq<Event>)
    ensures Written(trace) == [resp]
    ensures resp.body.action == "restore" && resp.body.file == ""
    ensures RestoredWith(c, file, run, Execs(trace), resp)
    ensures RunsThenResponds(trace, resp)
  {
    var dbExist, query := IsDbExist(c, run);
    Record([], Exec(query));
    trace := [Exec(query)];
    if dbExist.Failure? {
      resp := ErrorResponse(HttpInternalServerError, "restore", dbExist.error);
      Record(trace, Respond(resp));
      trace := trace + [Respond(resp)];
      assert ExecEvents([query]) == [Exec(query)];
      assert trace == [Exec(query)] + [Respond(resp)];
      return;
    }
    var tail;
    if dbExist.value {
      resp, tail := RestoreAndReport(c, file, true, run);
    } else {
      resp, tail := CreateAndRestore(c, file, run);
    }
    RunBefore(query, tail, resp);
    trace := trace + tail;
    assert Execs(trace)[1..] == Execs(tail);
  }

  /** restoreHandler once the backup file is found: connection resolution, then the tool runs. */
  method RestoreFromBackup(file: string, httpMethod: string, envSet: Option<PgConnection>, body: DecodeAnswer,
                           run: Invocation -> RunResult)
    returns (resp: Response, trace: seq<Event>)
    ensures Written(trace) == [resp]
    ensures resp.body.action == "restore" && resp.body.file == ""
    ensures var cfg := RestoreConfig(httpMethod, envSet, body);
      cfg.Failure? ==> trace == [Respond(cfg.error)]
    ensures var cfg := RestoreConfig(httpMethod, envSet, body);
      cfg.Success? ==> Execs(trace) != [] && RestoredWith(cfg.value, file, run, Execs(trace), resp)
    ensures RestoreConfig(httpMethod, envSet, body).Success? ==> RunsThenResponds(trace, resp)
  {
    var cfg := GetConnectionConfig(httpMethod, envSet, body, "restore");
    if cfg.Failure? {
      resp := cfg.error;
      Record([], Respond(resp));
      return resp, [Respond(resp)];
    }
    resp, trace := RestoreSteps(cfg.value, file, run);
  }

  /**
   * restoreHandler: checks the file name, the backup file and the connection
   * before any tool runs, then takes the steps RestoredWith describes.
   */
  method RestoreHandler(file: string, httpMethod: string, envSet: Option<PgConnection>, body: DecodeAnswer,
                        stat: string -> StatResult, run: Invocation -> RunResult)
    returns (resp: Response, trace: seq<Event>)
    ensures Written(trace) == [resp]
    ensures resp.body.action == "restore" && resp.body.file == ""
    ensures file == "" ==> trace == [Respond(ErrorResponse(HttpBadRequest, "restore", MessageFileNameNotSet))]
    ensures file != "" ==> trace[0] == StatFile(BackupPath(file))
    ensures file != "" && !BackupFound(file, stat) ==>
      trace == [StatFile(BackupPath(file)), Respond(ErrorResponse(HttpBadRequest, "restore", MessageBackupFileNotFound))]
    ensures var cfg := RestoreConfig(httpMethod, envSet, body);
      BackupFound(file, stat) && cfg.Failure? ==> trace == [StatFile(BackupPath(file)), Respond(cfg.error)]
    ensures Execs(trace) != [] <==> Admitted(file, httpMethod, envSet, body, stat)
    ensures Admitted(file, httpMethod, envSet, body, stat) ==>
      RestoredWith(RestoreConfig(httpMethod, envSet, body).value, file, run, Execs(trace), resp)
    ensures Admitted(file, httpMethod, envSet, body, stat) ==>
      trace == [StatFile(BackupPath(file))] + ExecEvents(Execs(trace)) + [Respond(resp)]
  {
    var actionName := "restore";

    if file == "" {
      resp := ErrorResponse(HttpBadRequest, actionName, MessageFileNameNotSet);
      Record([], Respond(resp));
      return resp, [Respond(resp)];
    }

    var path := BackupPath(file);
    Record([], StatFile(path));
    trace := [StatFile(path)];
    var fileExist := FileExist(stat(path));
    if fileExist.1.Some? || !fileExist.0 {
      resp := ErrorResponse(HttpBadRequest, actionName, MessageBackupFileNotFound);
      Record(trace, Respond(resp));
      trace := trace + [Respond(resp)];
      return;
    }

    var tail;
    resp, tail := RestoreFromBackup(file, httpMethod, envSet, body, run);
    ExecsAppend(trace, tail);
    WrittenAppend(trace, tail);
    if RestoreConfig(httpMethod, envSet, body).Success? {
      StatBefore(path, tail, resp);
    }
    if RestoreConfig(httpMethod, envSet, body).Failure? {
      assert [StatFile(path)] + tail == [StatFile(path), Respond(RestoreConfig(httpMethod, envSet, body).error)];
    }
    trace := trace + tail;
    assert Execs(trace) == Execs(tail);
  }

  /** When the database already exists, createdb never runs and pg_restore runs with --clean. */
  lemma ExistingDatabaseIsCleaned(c: PgConnection, file: string, run: Invocation -> RunResult,
                                  execs: seq<Invocation>, resp: Response)
    requires RestoredWith(c, file, run, execs, resp)
    requires DbFound(run(QueryCall(c)))
    ensures forall inv :: inv in execs ==> inv.app != PgCreateDb
    ensures execs[|execs| - 1].app == PgRestore && IsRestoreArgs(execs[|execs| - 1].args, c, file, true)
  {
    assert execs == [execs[0], execs[1]];
  }

  /** When the database is missing, createdb runs before any pg_restore, and pg_restore runs without --clean. */
  lemma MissingDatabaseIsCreatedFirst(c: PgConnection, file: string, run: Invocation -> RunResult,
                                      execs: seq<Invocation>, resp: Response)
    requires RestoredWith(c, file, run, execs, resp)
    requires run(QueryCall(c)).err.None? && !DbFound(run(QueryCall(c)))
    ensures execs[1].app == PgCreateDb
    ensures forall i :: 0 <= i < |execs| && execs[i].app == PgRestore ==> i == 2 && IsRestoreArgs(execs[i].args, c, file, false)
    ensures run(execs[1]).err.Some? ==> resp.code == HttpInternalServerError && |execs| == 2
  {
  }

  /**
   * A restore answers 200 exactly when every tool it ran succeeded and the last
   * one was pg_restore; the success response carries neither message nor file.
   */
  lemma RestoreOkIffAllSucceeded(c: PgConnection, file: string, run: Invocation -> RunResult,
                                 execs: seq<Invocation>, resp: Response)
    requires RestoredWith(c, file, run, execs, resp)
    ensures resp.code == HttpOk <==>
      execs[|execs| - 1].app == PgRestore && forall i :: 0 <= i < |execs| ==> run(execs[i]).err.None?
    ensures resp.code == HttpOk ==> resp == OkResponse("restore")
    ensures resp.code != HttpOk ==> resp.code == HttpInternalServerError && resp.body.status == StatusError
  {
    var found := run(QueryCall(c));
    if found.err.Some? {
      assert execs == [QueryCall(c)];
    } else if DbFound(found) {
      assert execs == [QueryCall(c), execs[1]];
    } else if run(CreateCall(c)).err.Some? {
      assert execs == [QueryCall(c), CreateCall(c)];
    } else {
      assert execs == [QueryCall(c), CreateCall(c), execs[2]];
    }
  }
}
