/**
 * The outside world as the handlers see it, and the single chokepoint through
 * which every external tool runs (executeWithOutput). Subprocesses, os.Stat and
 * os.MkdirAll are oracles passed in as functions; what a handler does is
 * recorded as a trace of events, in order.
 */
module Effects {
  import opened Wrappers
  import opened Responses

  /** One exec.Command: the tool, its arguments, and the variables added to the inherited environment. */
  datatype Invocation = Invocation(app: string, args: seq<string>, extraEnv: seq<string>)

  /** What CombinedOutput returned: its error text (None when the tool exited with 0) and the captured output. */
  datatype RunResult = RunResult(err: Option<string>, output: string)

  /** What os.Stat reported for a path. */
  datatype StatResult = Present | Absent | StatFailed(message: string)

  /** One observable step of a handler. */
  datatype Event =
    | StatFile(path: string)
    | MakeDirs(path: string)
    | Exec(inv: Invocation)
    | RemoveFile(path: string)
    | Respond(response: Response)

  /** The tools run, in order. */
  function Execs(t: seq<Event>): (r: seq<Invocation>)
    ensures |r| <= |t|
  {
    if t == [] then []
    else Execs(t[..|t| - 1]) + (if t[|t| - 1].Exec? then [t[|t| - 1].inv] else [])
  }

  /** The responses written, in order. */
  function Written(t: seq<Event>): (r: seq<Response>)
    ensures |r| <= |t|
  {
    if t == [] then []
    else Written(t[..|t| - 1]) + (if t[|t| - 1].Respond? then [t[|t| - 1].response] else [])
  }

  /** Recording one more event adds its tool run or its response, if it is one. */
  lemma Record(t: seq<Event>, e: Event)
    ensures e.Exec? ==> Execs(t + [e]) == Execs(t) + [e.inv]
    ensures !e.Exec? ==> Execs(t + [e]) == Execs(t)
    ensures e.Respond? ==> Written(t + [e]) == Written(t) + [e.response]
    ensures !e.Respond? ==> Written(t + [e]) == Written(t)
  {
    assert (t + [e])[..|t|] == t;
  }

  /** Tools run by two consecutive stretches of a trace. */
  lemma {:induction false} ExecsAppend(a: seq<Event>, b: seq<Event>)
    ensures Execs(a + b) == Execs(a) + Execs(b)
    decreases |b|
  {
    if b != [] {
      var b' := b[..|b| - 1];
      assert (a + b)[..|a + b| - 1] == a + b';
      ExecsAppend(a, b');
    } else {
      assert a + b == a;
    }
  }

  /** Responses written by two consecutive stretches of a trace. */
  lemma {:induction false} WrittenAppend(a: seq<Event>, b: seq<Event>)
    ensures Written(a + b) == Written(a) + Written(b)
    decreases |b|
  {
    if b != [] {
      var b' := b[..|b| - 1];
      assert (a + b)[..|a + b| - 1] == a + b';
      WrittenAppend(a, b');
    } else {
      assert a + b == a;
    }
  }

  /** The trace of tool runs and nothing else, in the order given. */
  function ExecEvents(execs: seq<Invocation>): (t: seq<Event>)
    ensures |t| == |execs| && forall i {:trigger execs[i]} :: 0 <= i < |t| ==> t[i] == Exec(execs[i])
    ensures Execs(t) == execs && Written(t) == []
    decreases |execs|
  {
    if execs == [] then []
    else
      var front := ExecEvents(execs[..|execs| - 1]);
      Record(front, Exec(execs[|execs| - 1]));
      assert execs == execs[..|execs| - 1] + [execs[|execs| - 1]];
      front + [Exec(execs[|execs| - 1])]
  }

  /** The runs-only traces of two consecutive stretches of runs. */
  lemma {:induction false} ExecEventsAppend(a: seq<Invocation>, b: seq<Invocation>)
    ensures ExecEvents(a + b) == ExecEvents(a) + ExecEvents(b)
    decreases |b|
  {
    if b == [] {
      assert a + b == a;
    } else {
      var b' := b[..|b| - 1];
      assert (a + b)[..|a + b| - 1] == a + b';
      ExecEventsAppend(a, b');
    }
  }

  /** The password travels as PGPASSWORD in the environment, and only when there is one. */
  function PasswordEnv(pass: string): (env: seq<string>)
    ensures env == [] <==> pass == ""
    ensures pass != "" ==> env == ["PGPASSWORD=" + pass]
  {
    if pass != "" then ["PGPASSWORD=" + pass] else []
  }

  /** The invocation executeWithOutput builds for a tool, its arguments and a password. */
  function Call(app: string, args: seq<string>, pass: string): (inv: Invocation)
  {
    Invocation(app, args, PasswordEnv(pass))
  }

  /** The diagnostic executeWithOutput reports when a tool fails. */
  function Diagnostic(app: string, error: string, output: string): (message: string)
  {
    "Can't execute app " + app + ", error: " + error + "\nOutput:\n" + output
  }

  /**
   * executeWithOutput: runs `app` with `args`, adds PGPASSWORD only for a
   * non-empty password and never touches `args`; on failure reports the
   * diagnostic, on success the captured output unless `omit` asks for "".
   */
  method ExecuteWithOutput(app: string, args: seq<string>, pgPassword: string, omit: bool,
                           run: Invocation -> RunResult)
    returns (ok: bool, out: string, inv: Invocation)
    ensures inv.app == app && inv.args == args
    ensures pgPassword == "" ==> inv.extraEnv == []
    ensures pgPassword != "" ==> inv.extraEnv == ["PGPASSWORD=" + pgPassword]
    ensures ok <==> run(inv).err.None?
    ensures !ok ==> out == Diagnostic(app, run(inv).err.value, run(inv).output)
    ensures ok && omit ==> out == ""
    ensures ok && !omit ==> out == run(inv).output
  {
    var env: seq<string> := [];
    if pgPassword != "" {
      env := env + ["PGPASSWORD=" + pgPassword];
    }
    inv := Invocation(app, args, env);
    var res := run(inv);
    if res.err.Some? {
      return false, Diagnostic(app, res.err.value, res.output), inv;
    }
    if omit {
      return true, "", inv;
    }
    return true, res.output, inv;
  }
}
