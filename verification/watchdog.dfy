/**
 * The reloader's supervisor (`watchdog`, `kill_program_completely`).
 *
 * One pass of the watch loop: stat every watched file, update the table of
 * modification times, and when a file has changed terminate the worker's
 * children and the worker and launch a new one. What the operating system
 * does is recorded as a trace of actions; the file system, the process
 * table and the pid of a newly launched worker are inputs.
 */
module Watchdog {
  import opened Common
  import opened ModuleFiles
  import opened Relaunch
  import opened ProcessKill

  /** A modification time; the loop only compares them with `>`. */
  type Mtime = int

  /** What one pass sees of the file system: `stat` holds the modification
      time of every path `os.stat` succeeds on. */
  datatype FileSystem = FileSystem(
    isfile: string -> bool,
    dirname: string -> string,
    stat: map<string, Mtime>)

  /** What the kill strategies see of the processes. */
  datatype Processes = Processes(children: ChildrenTable, alive: set<Pid>)

  /** A request made to the operating system. */
  datatype Action =
    | Kill(request: KillAction)     // from kill_process_children
    | Terminate(pid: Pid)           // proc.terminate()
    | Launch(cmd: Command, pid: Pid)  // subprocess.Popen, which started `pid`
    | Exit(status: int)             // os._exit

  // ---------------------------------------------------------------------
  // The table of modification times

  /** The table after a scan, and whether a reload is needed. */
  datatype ScanResult = ScanResult(mtimes: map<string, Mtime>, needReload: bool)

  /** One path of the scan: skipped when it cannot be stat'ed; recorded
      without a reload when it has no entry yet; overwritten with a reload
      when its time has strictly increased; left alone otherwise. */
  function ObservePath(acc: ScanResult, path: string, stat: map<string, Mtime>): (r: ScanResult)
    ensures acc.needReload ==> r.needReload
    ensures r.mtimes.Keys == acc.mtimes.Keys + (if path in stat then {path} else {})
    ensures r.needReload != acc.needReload ==> path in acc.mtimes && path in stat && stat[path] > acc.mtimes[path]
  {
    if path !in stat then acc
    else if path !in acc.mtimes then ScanResult(acc.mtimes[path := stat[path]], acc.needReload)
    else if stat[path] > acc.mtimes[path] then ScanResult(acc.mtimes[path := stat[path]], true)
    else acc
  }

  /** The scan of `paths` in order, starting without a reload. */
  function Scan(mtimes: map<string, Mtime>, paths: seq<string>, stat: map<string, Mtime>): ScanResult
    decreases |paths|
  {
    if paths == [] then ScanResult(mtimes, false)
    else ObservePath(Scan(mtimes, paths[..|paths| - 1], stat), paths[|paths| - 1], stat)
  }

  /** The watched paths that could be stat'ed. */
  function Seen(paths: seq<string>, stat: map<string, Mtime>): set<string> {
    set p | p in paths && p in stat
  }

  /** The table a scan should leave, stated without the scan order: every
      seen path holds the later of its old and its new time, every other
      entry is kept. */
  function Refreshed(mtimes: map<string, Mtime>, seen: set<string>, stat: map<string, Mtime>)
    : (r: map<string, Mtime>)
    requires seen <= stat.Keys
    ensures r.Keys == mtimes.Keys + seen
    ensures forall p :: p in mtimes ==> r[p] >= mtimes[p]
    ensures forall p :: p in seen ==> r[p] >= stat[p]
    ensures forall p :: p in seen && p !in mtimes ==> r[p] == stat[p]
    ensures forall p :: p in mtimes && p !in seen ==> r[p] == mtimes[p]
    ensures forall p :: p in r ==> (p in mtimes && r[p] == mtimes[p]) || (p in seen && r[p] == stat[p])
  {
    map p | p in mtimes.Keys + seen ::
      if p in seen && (p !in mtimes || stat[p] > mtimes[p]) then stat[p] else mtimes[p]
  }

  /** Some watched, stat'able path already had an entry and its time is now
      strictly greater. */
  predicate SomeFileAdvanced(mtimes: map<string, Mtime>, paths: seq<string>, stat: map<string, Mtime>) {
    exists p :: p in paths && p in mtimes && p in stat && stat[p] > mtimes[p]
  }

  /** Observing one more path keeps the table equal to `Refreshed`. */
  lemma ObserveKeepsRefreshed(mtimes: map<string, Mtime>, init: seq<string>, p: string, stat: map<string, Mtime>)
    ensures ObservePath(ScanResult(Refreshed(mtimes, Seen(init, stat), stat), false), p, stat).mtimes ==
            Refreshed(mtimes, Seen(init + [p], stat), stat)
  {
  }

  /** Observing one more path asks for a reload exactly when that path
      already had an entry and its time is now strictly greater, or when
      an earlier path already did. */
  lemma ObserveDecidesReload(mtimes: map<string, Mtime>, init: seq<string>, p: string, stat: map<string, Mtime>,
                             acc: bool)
    ensures ObservePath(ScanResult(Refreshed(mtimes, Seen(init, stat), stat), acc), p, stat).needReload ==
            (acc || (p !in init && p in mtimes && p in stat && stat[p] > mtimes[p]))
  {
  }

  /** What a scan does, independently of the order of the paths: the table
      becomes `Refreshed`, and a reload is needed exactly when some watched
      file that already had an entry has a strictly greater time. A path
      seen for the first time only sets its baseline. */
  lemma {:induction false} ScanIsRefresh(mtimes: map<string, Mtime>, paths: seq<string>, stat: map<string, Mtime>)
    ensures Scan(mtimes, paths, stat) ==
            ScanResult(Refreshed(mtimes, Seen(paths, stat), stat), SomeFileAdvanced(mtimes, paths, stat))
    decreases |paths|
  {
    if paths == [] {
      assert Seen(paths, stat) == {};
      assert Refreshed(mtimes, {}, stat) == mtimes;
    } else {
      var init := paths[..|paths| - 1];
      var p := paths[|paths| - 1];
      assert paths == init + [p];
      ScanIsRefresh(mtimes, init, stat);
      var acc := SomeFileAdvanced(mtimes, init, stat);
      ObserveKeepsRefreshed(mtimes, init, p, stat);
      ObserveDecidesReload(mtimes, init, p, stat, acc);
      if p in init && p in mtimes && p in stat && stat[p] > mtimes[p] {
        assert acc;
      }
      assert SomeFileAdvanced(mtimes, paths, stat) ==
             (acc || (p in mtimes && p in stat && stat[p] > mtimes[p]));
    }
  }

  /** The first scan, over an empty table, never asks for a reload. */
  lemma FirstScanNeverReloads(paths: seq<string>, stat: map<string, Mtime>)
    ensures !Scan(map[], paths, stat).needReload
    ensures Scan(map[], paths, stat).mtimes.Keys == Seen(paths, stat)
  {
    ScanIsRefresh(map[], paths, stat);
  }

  /** A scan only adds entries and never lowers one, and the entries of
      paths that were not watched or could not be stat'ed are unchanged. */
  lemma {:induction false} ScanIsMonotone(mtimes: map<string, Mtime>, paths: seq<string>, stat: map<string, Mtime>)
    ensures mtimes.Keys <= Scan(mtimes, paths, stat).mtimes.Keys
    ensures forall p :: p in mtimes ==> Scan(mtimes, paths, stat).mtimes[p] >= mtimes[p]
    ensures forall p :: p !in paths || p !in stat ==>
              (p in Scan(mtimes, paths, stat).mtimes <==> p in mtimes) &&
              (p in mtimes ==> Scan(mtimes, paths, stat).mtimes[p] == mtimes[p])
  {
    ScanIsRefresh(mtimes, paths, stat);
  }

  /** Scanning the same files again, with nothing changed, asks for no
      reload and leaves the table as it is. */
  lemma RescanIsQuiet(mtimes: map<string, Mtime>, paths: seq<string>, stat: map<string, Mtime>)
    ensures Scan(Scan(mtimes, paths, stat).mtimes, paths, stat) ==
            ScanResult(Scan(mtimes, paths, stat).mtimes, false)
  {
    var table := Scan(mtimes, paths, stat).mtimes;
    ScanIsRefresh(mtimes, paths, stat);
    ScanIsRefresh(table, paths, stat);
    assert Refreshed(table, Seen(paths, stat), stat) == table;
  }

  // ---------------------------------------------------------------------
  // The actions of a reload and of a shutdown

  function AsActions(requests: seq<KillAction>): (r: seq<Action>)
    ensures |r| == |requests|
    ensures forall i :: 0 <= i < |r| ==> r[i] == Kill(requests[i])
  {
    if requests == [] then []
    else AsActions(requests[..|requests| - 1]) + [Kill(requests[|requests| - 1])]
  }

  /** A reload: the children of the current worker are killed, then the
      worker is terminated, then the new worker is launched, last. */
  function ReloadActions(platform: string, procs: Processes, current: Pid, cmd: Command, next: Pid)
    : (r: seq<Action>)
    ensures |r| >= 2 && r[|r| - 2] == Terminate(current) && r[|r| - 1] == Launch(cmd, next)
    ensures forall i :: 0 <= i < |r| - 2 ==> r[i].Kill?
    ensures r[..|r| - 2] == AsActions(KillTrace(platform, procs.children, procs.alive, current))
  {
    AsActions(KillTrace(platform, procs.children, procs.alive, current)) + [Terminate(current), Launch(cmd, next)]
  }

  /** A shutdown: the children of the current worker are killed, then the
      worker is terminated, then the supervisor exits with status 0. */
  function ShutdownActions(platform: string, procs: Processes, current: Pid): (r: seq<Action>)
    ensures |r| >= 2 && r[|r| - 2] == Terminate(current) && r[|r| - 1] == Exit(0)
    ensures forall i :: 0 <= i < |r| - 2 ==> r[i].Kill?
    ensures r[..|r| - 2] == AsActions(KillTrace(platform, procs.children, procs.alive, current))
  {
    AsActions(KillTrace(platform, procs.children, procs.alive, current)) + [Terminate(current), Exit(0)]
  }

  /** The pid started by the last launch in a trace. */
  function LastLaunched(log: seq<Action>): Option<Pid> {
    if log == [] then None
    else if log[|log| - 1].Launch? then Some(log[|log| - 1].pid)
    else LastLaunched(log[..|log| - 1])
  }

  /** Actions other than launches do not change which worker is current. */
  lemma {:induction false} LastLaunchedSkips(log: seq<Action>, rest: seq<Action>)
    requires forall i :: 0 <= i < |rest| ==> !rest[i].Launch?
    ensures LastLaunched(log + rest) == LastLaunched(log)
    decreases |rest|
  {
    if rest == [] {
      assert log + rest == log;
    } else {
      var init := rest[..|rest| - 1];
      assert (log + rest)[..|log + rest| - 1] == log + init;
      LastLaunchedSkips(log, init);
    }
  }

  // ---------------------------------------------------------------------
  // The supervisor

  /** The state `watchdog` keeps across loop iterations. */
  class Supervisor {
    /** `sys.executable`, `sys.argv`, `__main__.__spec__`, the working
        directory and the environment: fixed for the supervisor's life. */
    const context: Invocation
    /** `sys.platform`. */
    const platform: string
    /** The table of modification times. */
    var mtimes: map<string, Mtime>
    /** The pid of the current worker (`worker_process`). */
    var worker: Pid
    /** Whether `os._exit` has been called. */
    var exited: bool
    /** Every action requested so far. */
    var log: seq<Action>

    /** The context can be relaunched, and the current worker is the one
        started by the last launch: exactly one worker is current. */
    ghost predicate Valid()
      reads this
    {
      RestartWithReloader(context).Success? && LastLaunched(log) == Some(worker)
    }

    constructor(context: Invocation, platform: string, firstPid: Pid)
      requires RestartWithReloader(context).Success?
      ensures Valid() && this.context == context && this.platform == platform
      ensures mtimes == map[] && worker == firstPid && !exited
      ensures log == [Launch(RestartWithReloader(context).value, firstPid)]
    {
      this.context := context;
      this.platform := platform;
      mtimes := map[];
      worker := firstPid;
      exited := false;
      log := [Launch(RestartWithReloader(context).value, firstPid)];
    }

    /** Startup: an empty table and a first worker, or the launch error
        when the invocation cannot be reproduced (no worker is started). */
    static method Start(context: Invocation, platform: string, firstPid: Pid)
      returns (r: Result<Supervisor, LaunchError>)
      ensures r.Failure? <==> !Reproducible(context.argv)
      ensures r.Failure? ==> r.error == RestartWithReloader(context).error
      ensures r.Success? ==>
                && fresh(r.value) && r.value.Valid() && !r.value.exited
                && r.value.context == context && r.value.platform == platform
                && r.value.mtimes == map[] && r.value.worker == firstPid
                && r.value.log == [Launch(RestartWithReloader(context).value, firstPid)]
    {
      match RestartWithReloader(context)
      case Failure(e) =>
        r := Failure(e);
      case Success(_) =>
        var s := new Supervisor(context, platform, firstPid);
        r := Success(s);
    }

    /** The `for` loop over the watched files: update the table and decide
        whether a reload is needed. */
    method ScanFiles(files: seq<string>, stat: map<string, Mtime>) returns (needReload: bool)
      modifies this`mtimes
      ensures mtimes == Scan(old(mtimes), files, stat).mtimes
      ensures needReload == Scan(old(mtimes), files, stat).needReload
    {
      needReload := false;
      for i := 0 to |files|
        invariant ScanResult(mtimes, needReload) == Scan(old(mtimes), files[..i], stat)
      {
        assert files[..i + 1][..i] == files[..i];
        var filename := files[i];
        if filename !in stat {
          continue;
        }
        var mtime := stat[filename];
        if filename !in mtimes {
          mtimes := mtimes[filename := mtime];
        } else if mtime > mtimes[filename] {
          mtimes := mtimes[filename := mtime];
          needReload := true;
        }
      }
      assert files[..|files|] == files;
    }

    /** One iteration of the watch loop. `newPid` is the pid the operating
        system gives a worker launched in this iteration. */
    method Step(registry: Registry, fs: FileSystem, procs: Processes, newPid: Pid) returns (needReload: bool)
      requires Valid() && !exited && ShrinksOrFixed(fs.dirname)
      modifies this
      ensures Valid() && !exited
      ensures var scan := Scan(old(mtimes), ModuleFilesOf(registry, fs.isfile, fs.dirname), fs.stat);
              mtimes == scan.mtimes && needReload == scan.needReload
      ensures needReload ==>
                && worker == newPid
                && log == old(log) + ReloadActions(platform, procs, old(worker), RestartWithReloader(context).value, newPid)
      ensures !needReload ==> worker == old(worker) && log == old(log)
    {
      var files := IterModuleFiles(registry, fs.isfile, fs.dirname);
      needReload := ScanFiles(files, fs.stat);
      if needReload {
        var requests := KillProcessChildren(platform, procs.children, procs.alive, worker);
        var cmd := RestartWithReloader(context).value;
        log := log + (AsActions(requests) + [Terminate(worker), Launch(cmd, newPid)]);
        worker := newPid;
      }
    }

    /** The signal handler: kill the current worker's children, terminate
        the worker, and exit with status 0. */
    method KillProgramCompletely(procs: Processes)
      requires Valid() && !exited
      modifies this
      ensures Valid() && exited
      ensures worker == old(worker) && mtimes == old(mtimes)
      ensures log == old(log) + ShutdownActions(platform, procs, old(worker))
    {
      var requests := KillProcessChildren(platform, procs.children, procs.alive, worker);
      var actions := AsActions(requests) + [Terminate(worker), Exit(0)];
      LastLaunchedSkips(log, actions);
      log := log + actions;
      exited := true;
    }
  }
}
