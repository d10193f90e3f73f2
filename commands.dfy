/**
 * The command lines of the four PostgreSQL tools, and the three helpers that
 * run createdb, psql and pg_restore for a restore. None of the argument
 * lists carries the password: it reaches the tools only through PGPASSWORD.
 */
module Commands {
  import opened Wrappers
  import opened Text
  import opened Connection
  import opened Effects

  const PSql := "psql"
  const PgDump := "pg_dump"
  const PgRestore := "pg_restore"
  const PgCreateDb := "createdb"

  /** -h, -p and -U: the server and the role every tool connects as. */
  function ConnectionFlags(c: PgConnection): (flags: seq<string>)
  {
    ["-h", c.host, "-p", c.port, "-U", c.user]
  }

  /** The fixed flags that occur in the argument lists. */
  const ToolFlags: set<string> := {
    "-h", "-p", "-U", "-Fc", "--no-password", "-v", "-f", "--clean", "-d", "--echo",
    "--template=template0", "--encoding=UTF8", "--tuples-only", "--no-align", "-c"
  }

  /** The values an argument list may contain besides the fixed flags: never the password. */
  function PublicValues(c: PgConnection, file: string): (values: set<string>)
  {
    {c.host, c.port, c.user, c.db, file, ExistsQuery(c.db)}
  }

  /** Every argument is a fixed flag or a public connection value. */
  predicate FromPublicValues(args: seq<string>, c: PgConnection, file: string)
  {
    forall a :: a in args ==> a in ToolFlags || a in PublicValues(c, file)
  }

  /** The pg_dump command line of backupHandler: custom format, no prompt, verbose, into `fileName`. */
  function BackupArgs(c: PgConnection, fileName: string): (args: seq<string>)
    ensures |args| == 12 && args[..6] == ConnectionFlags(c)
    ensures args[6..9] == ["-Fc", "--no-password", "-v"]
    ensures args[9..] == [c.db, "-f", fileName]
  {
    [
      "-h", c.host,
      "-p", c.port,
      "-U", c.user,
      "-Fc",
      "--no-password",
      "-v",
      c.db,
      "-f", fileName
    ]
  }

  /** createDb's command line: a UTF8 database copied from template0, named last. */
  function CreateDbArgs(c: PgConnection): (args: seq<string>)
    ensures |args| == 11 && args[..6] == ConnectionFlags(c)
    ensures "--no-password" in args && "--template=template0" in args && "--encoding=UTF8" in args
    ensures args[|args| - 1] == c.db
  {
    [
      "-h", c.host,
      "-p", c.port,
      "-U", c.user,
      "--no-password",
      "--echo",
      "--template=template0",
      "--encoding=UTF8",
      c.db
    ]
  }

  /** The catalog query isDbExist runs, with the double quotes the source puts around it. */
  function ExistsQuery(db: string): (query: string)
  {
    "\"SELECT 1 FROM pg_database WHERE datname='" + db + "'\""
  }

  /** isDbExist's command line: tuples only, unaligned, one -c query. */
  function ExistsQueryArgs(c: PgConnection): (args: seq<string>)
    ensures |args| == 11 && args[..6] == ConnectionFlags(c)
    ensures args[6..9] == ["--no-password", "--tuples-only", "--no-align"]
    ensures args[9..] == ["-c", ExistsQuery(c.db)]
  {
    [
      "-h", c.host,
      "-p", c.port,
      "-U", c.user,
      "--no-password",
      "--tuples-only",
      "--no-align",
      "-c", ExistsQuery(c.db)
    ]
  }

  /**
   * A pg_restore command line of restoreDb: the connection flags, no prompt,
   * --clean exactly when asked for, then -d with the database and the dump file.
   */
  predicate IsRestoreArgs(args: seq<string>, c: PgConnection, dumpFile: string, clean: bool)
  {
    && |args| == (if clean then 11 else 10)
    && args[..6] == ConnectionFlags(c)
    && args[6] == "--no-password"
    && (clean ==> args[7] == "--clean")
    && args[|args| - 3..] == ["-d", c.db, dumpFile]
  }

  /** A pg_restore invocation of restoreDb, with the password in the environment. */
  predicate IsRestoreCall(inv: Invocation, c: PgConnection, dumpFile: string, clean: bool)
  {
    inv.app == PgRestore && IsRestoreArgs(inv.args, c, dumpFile, clean) && inv.extraEnv == PasswordEnv(c.pass)
  }

  /**
   * A restore command line holds --clean exactly when asked for, as long as no
   * connection value is itself the text "--clean"; and it never carries the password.
   */
  lemma RestoreArgsFlags(args: seq<string>, c: PgConnection, dumpFile: string, clean: bool)
    requires IsRestoreArgs(args, c, dumpFile, clean)
    requires "--clean" !in {c.host, c.port, c.user, c.db, dumpFile}
    ensures "--clean" in args <==> clean
    ensures FromPublicValues(args, c, dumpFile)
  {
    assert args == args[..6] + args[6..|args| - 3] + args[|args| - 3..];
    if !clean {
      assert args[6..|args| - 3] == ["--no-password"];
    } else {
      assert args[6..|args| - 3] == ["--no-password", "--clean"];
    }
  }

  /** The pg_dump, createdb and psql command lines hold only fixed flags and public connection values. */
  lemma ArgsFromPublicValues(c: PgConnection, file: string)
    ensures FromPublicValues(BackupArgs(c, file), c, file)
    ensures FromPublicValues(CreateDbArgs(c), c, "")
    ensures FromPublicValues(ExistsQueryArgs(c), c, "")
  {
  }

  /** The argument lists never depend on the password. */
  lemma ArgsIgnorePassword(c: PgConnection, pass: string, file: string, args: seq<string>, clean: bool)
    ensures BackupArgs(c, file) == BackupArgs(c.(pass := pass), file)
    ensures CreateDbArgs(c) == CreateDbArgs(c.(pass := pass))
    ensures ExistsQueryArgs(c) == ExistsQueryArgs(c.(pass := pass))
    ensures IsRestoreArgs(args, c, file, clean) <==> IsRestoreArgs(args, c.(pass := pass), file, clean)
  {
  }

  /** The text restoreDb, createDb and isDbExist wrap a tool's failure in. */
  function Failed(prefix: string, app: string, r: RunResult): (message: string)
    requires r.err.Some?
  {
    prefix + "\n" + Diagnostic(app, r.err.value, r.output)
  }

  const RestoreFailure := "restoreDb execution error"
  const CreateFailure := "createdb execution error"
  const ExistsFailure := "psql check DB exist execution error"

  /** The exists query found the database: psql succeeded and printed "1", trimmed. */
  predicate DbFound(r: RunResult)
  {
    r.err.None? && TrimSpace(r.output) == "1"
  }

  /**
   * isDbExist: runs the catalog query with the output kept; an error when psql
   * fails, otherwise whether the trimmed output is exactly "1".
   */
  method IsDbExist(c: PgConnection, run: Invocation -> RunResult)
    returns (dbExist: Result<bool, string>, inv: Invocation)
    ensures inv == Call(PSql, ExistsQueryArgs(c), c.pass)
    ensures dbExist.Success? <==> run(inv).err.None?
    ensures dbExist.Success? ==> (dbExist.value <==> TrimSpace(run(inv).output) == "1")
    ensures dbExist.Failure? ==> dbExist.error == Failed(ExistsFailure, PSql, run(inv))
  {
    var args := ExistsQueryArgs(c);
    var res, out;
    res, out, inv := ExecuteWithOutput(PSql, args, c.pass, false, run);
    if !res {
      return Failure(ExistsFailure + "\n" + out), inv;
    }
    return Success(TrimSpace(out) == "1"), inv;
  }

  /** The database counts as existing exactly when psql printed a lone "1" amid white space. */
  lemma DbFoundIffPaddedOne(r: RunResult)
    ensures DbFound(r) <==> r.err.None? && exists k :: PaddedOneAt(r.output, k)
  {
    TrimSpaceIsOne(r.output);
  }

  /** createDb: runs createdb; an error carrying the diagnostic when it fails. */
  method CreateDb(c: PgConnection, run: Invocation -> RunResult) returns (err: Option<string>, inv: Invocation)
    ensures inv == Call(PgCreateDb, CreateDbArgs(c), c.pass)
    ensures err.None? <==> run(inv).err.None?
    ensures err.Some? ==> err.value == Failed(CreateFailure, PgCreateDb, run(inv))
  {
    var args := CreateDbArgs(c);
    var res, out;
    res, out, inv := ExecuteWithOutput(PgCreateDb, args, c.pass, true, run);
    if !res {
      return Some(CreateFailure + "\n" + out), inv;
    }
    return None, inv;
  }

  /** restoreDb: builds the pg_restore command line flag by flag and runs it. */
  method RestoreDb(c: PgConnection, dumpFile: string, cleanDb: bool, run: Invocation -> RunResult)
    returns (err: Option<string>, inv: Invocation)
    ensures IsRestoreCall(inv, c, dumpFile, cleanDb)
    ensures err.None? <==> run(inv).err.None?
    ensures err.Some? ==> err.value == Failed(RestoreFailure, PgRestore, run(inv))
  {
    var args := [
      "-h", c.host,
      "-p", c.port,
      "-U", c.user,
      "--no-password"
    ];
    if cleanDb {
      args := args + ["--clean"];
    }
    args := args + ["-d", c.db, dumpFile];
    var res, out;
    res, out, inv := ExecuteWithOutput(PgRestore, args, c.pass, true, run);
    if !res {
      return Some(RestoreFailure + "\n" + out), inv;
    }
    return None, inv;
  }
}
