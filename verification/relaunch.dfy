/**
 * Building the command that relaunches the program as a supervised child
 * (`_get_args_for_reloading` and `restart_with_reloader`).
 *
 * The interpreter state the source reads (`sys.executable`, `sys.argv`,
 * the `__spec__` of `__main__`, `os.getcwd()`, `os.environ`) is passed in
 * as an `Invocation`.
 */
module Relaunch {
  import opened Common

  /** The environment marker that tells the child it runs under the reloader. */
  const ServerRunningKey: string := "SANIC_SERVER_RUNNING"

  /** How the current interpreter was started. `mainSpec` is the name in
      `__main__.__spec__` when the program was started with `-m`. */
  datatype Invocation = Invocation(
    executable: string,
    argv: seq<string>,
    mainSpec: Option<string>,
    cwd: string,
    environ: map<string, string>)

  /** Why no relaunch command can be built: `sys.argv` is empty (an
      `IndexError`), or `argv[0]` is "" or "-c" (the `RuntimeError`). */
  datatype LaunchError = NoArgv0 | CannotReload(argv0: string)

  /** What `subprocess.Popen` is called with. */
  datatype Command = Command(args: seq<string>, cwd: string, env: map<string, string>)

  /** The original invocation can be reproduced from `argv`. */
  predicate Reproducible(argv: seq<string>) {
    |argv| > 0 && argv[0] != "" && argv[0] != "-c"
  }

  /** The relaunch arguments. A program started with `-m` is relaunched as
      `executable -m <name>` followed by its arguments; a script is relaunched
      with its script path and arguments. */
  function ArgsForReloading(executable: string, argv: seq<string>, mainSpec: Option<string>)
    : (r: Result<seq<string>, LaunchError>)
    ensures r.Failure? <==> !Reproducible(argv)
    ensures r.Failure? ==> r.error == if argv == [] then NoArgv0 else CannotReload(argv[0])
    ensures r.Success? ==> |r.value| >= 1 && r.value[0] == executable
    ensures r.Success? && mainSpec.Some? ==>
              |r.value| == |argv| + 2 && r.value[1..3] == ["-m", mainSpec.value] && r.value[3..] == argv[1..]
    ensures r.Success? && mainSpec.None? ==> r.value[1..] == argv
  {
    if argv == [] then Failure(NoArgv0)
    else if argv[0] == "" || argv[0] == "-c" then Failure(CannotReload(argv[0]))
    else if mainSpec.Some? then Success([executable, "-m", mainSpec.value] + argv[1..])
    else Success([executable] + argv)
  }

  /** The child's environment: the parent's, with the marker set to "true"
      and every other variable unchanged. */
  function ChildEnv(environ: map<string, string>): (r: map<string, string>)
    ensures r.Keys == environ.Keys + {ServerRunningKey}
    ensures r[ServerRunningKey] == "true"
    ensures forall k :: k in environ && k != ServerRunningKey ==> r[k] == environ[k]
  {
    environ[ServerRunningKey := "true"]
  }

  /** The full `Popen` request: the relaunch arguments, the current working
      directory and the marked environment; it fails exactly when the
      arguments cannot be built. */
  function RestartWithReloader(inv: Invocation): (r: Result<Command, LaunchError>)
    ensures r.Success? <==> Reproducible(inv.argv)
    ensures r.Failure? ==> r.error == ArgsForReloading(inv.executable, inv.argv, inv.mainSpec).error
    ensures r.Success? ==>
              && r.value.args == ArgsForReloading(inv.executable, inv.argv, inv.mainSpec).value
              && r.value.cwd == inv.cwd
              && r.value.env == ChildEnv(inv.environ)
  {
    match ArgsForReloading(inv.executable, inv.argv, inv.mainSpec)
    case Failure(e) => Failure(e)
    case Success(args) => Success(Command(args, inv.cwd, ChildEnv(inv.environ)))
  }

  /** The invocation a relaunched child sees. The interpreter takes
      `cmd.args[0]` as its executable; for a script it passes the rest on as
      `sys.argv`; under `-m <name>` it keeps the module spec and puts the
      module's file path, `modulePath`, in `argv[0]`. */
  function ChildInvocation(parent: Invocation, cmd: Command, modulePath: string): Invocation
    requires |cmd.args| >= if parent.mainSpec.Some? then 3 else 1
  {
    Invocation(
      cmd.args[0],
      if parent.mainSpec.Some? then [modulePath] + cmd.args[3..] else cmd.args[1..],
      parent.mainSpec,
      cmd.cwd,
      cmd.env)
  }

  /** The marked environment is unchanged by marking it again. */
  lemma ChildEnvIdempotent(environ: map<string, string>)
    ensures ChildEnv(ChildEnv(environ)) == ChildEnv(environ)
  {
  }

  /** Every relaunch is identical: a child started with the relaunch command
      would build exactly the same command again. */
  lemma RelaunchIsStable(parent: Invocation, modulePath: string)
    requires RestartWithReloader(parent).Success?
    requires modulePath != "" && modulePath != "-c"
    ensures |RestartWithReloader(parent).value.args| >= if parent.mainSpec.Some? then 3 else 1
    ensures RestartWithReloader(ChildInvocation(parent, RestartWithReloader(parent).value, modulePath))
            == RestartWithReloader(parent)
  {
    var cmd := RestartWithReloader(parent).value;
    var child := ChildInvocation(parent, cmd, modulePath);
    ChildEnvIdempotent(parent.environ);
    if parent.mainSpec.Some? {
      assert child.argv[1..] == parent.argv[1..];
    } else {
      assert child.argv == parent.argv;
    }
  }
}
