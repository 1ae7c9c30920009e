# Sanic auto-reloader, modelled in Dafny

This project models the decision logic of Sanic's development auto-reloader
(`sanic/reloader_helpers.py`). The reloader runs the program as a worker
child process and polls the modification times of every loaded module's
file. When one of them advances, it kills the worker's children, terminates
the worker and launches a fresh one. The operating system is replaced by
inputs and a trace of requests:

- `os.path.isfile` and `os.path.dirname` are function parameters.
- `os.stat` is a partial map from path to modification time.
- The `/proc/<pid>/task/<pid>/children` files are a partial map from pid to
  the pids listed in the file.
- The set of live pids decides whether `os.kill` raises `ProcessLookupError`.
- `subprocess.Popen`, `proc.terminate()`, `pkill` and `os._exit` are actions
  appended to a log, and the pid of a new worker is a parameter.

Files and modules:

- `common.dfy` (`Common`): `Option`, `Result` and `Pid`.
- `module_files.dfy` (`ModuleFiles`): `_iter_module_files`. It walks each
  `__file__` up with `dirname` until a file is found or the path is its own
  parent, then rewrites `.pyc`/`.pyo` to `.py`. A POSIX `dirname` is
  included and proved to make the walk terminate.
- `relaunch.dfy` (`Relaunch`): `_get_args_for_reloading`, plus the
  environment and working directory of `restart_with_reloader`.
- `process_kill.dfy` (`ProcessKill`): `kill_process_children_unix`,
  `kill_process_children_osx` and the platform dispatch
  `kill_process_children`.
- `watchdog.dfy` (`Watchdog`): the `Supervisor` class. It holds the state of
  `watchdog`: the `mtimes` table, the current worker and the action log. It
  has one iteration of the watch loop and `kill_program_completely`.

Three points where the source does less than its own docstrings and
comments suggest. The model follows the code each time:

- `kill_process_children_osx` is documented as "Find and kill child
  processes", but it runs `pkill -P <pid>`, which matches only processes
  whose parent is `<pid>`. It reaches direct children, not all descendants.
  The model records the single `pkill` request and does not say which
  processes it reaches.
- `kill_program_completely` is documented as "Kill worker and it's child
  processes", but it calls `proc.terminate()`, which sends SIGTERM rather than
  a forcible kill. A reload also calls `terminate()` and launches the new
  worker without waiting for the old one to exit. The model records
  `Terminate(old)` immediately followed by `Launch(new)`.
- In `kill_process_children`, the branch for a platform other than "darwin"
  or "linux" carries the comment "should signal error here" (line 112), but it
  raises nothing and makes no request. The model yields an empty trace.

## Model

| member | source | states |
|---|---|---|
| `ModuleFiles.FindFile` | sanic/reloader_helpers.py:23-29 | The walk from one `__file__` up the `dirname` chain. A result is a file and no longer than the start path. `FindFileIsFirstFileAncestor` says which parent it is. |
| `ModuleFiles.FindFileIsFirstFileAncestor` | sanic/reloader_helpers.py:23-29 | The walk up the directory chain yields the first iterated parent of the path that is a file. It yields nothing exactly when no iterated parent is a file. |
| `ModuleFiles.SourcePath` | sanic/reloader_helpers.py:30-31 | A path ending in `.pyc` or `.pyo` loses only its last character and then ends in `.py`. Any other path is unchanged. The result never ends in a bytecode suffix. |
| `ModuleFiles.ModuleFile` | sanic/reloader_helpers.py:18-32 | What one registry entry contributes: nothing, or one path. `ModuleFileResolution` states exactly when and which. |
| `ModuleFiles.ModuleFileResolution` | sanic/reloader_helpers.py:18-32 | An entry yields nothing when it is `None`, when its `__file__` is missing or empty, or when no iterated parent is a file. Otherwise it yields the source path of the first such parent. |
| `ModuleFiles.ModuleFilesOf` | sanic/reloader_helpers.py:18-32 | The generator's output over a registry snapshot, in order. It has at most one path per entry. `ModuleFilesOfMembers` and `IterModuleFiles` state what it holds. |
| `ModuleFiles.ModuleFilesOfSound` | sanic/reloader_helpers.py:18-32 | Every yielded path is the resolution of some registry entry. |
| `ModuleFiles.ModuleFilesOfComplete` | sanic/reloader_helpers.py:18-32 | Every registry entry that resolves to a path has that path yielded. |
| `ModuleFiles.ModuleFilesOfMembers` | sanic/reloader_helpers.py:18-32 | A path is yielded exactly when some entry of the registry snapshot resolves to it. |
| `ModuleFiles.IterModuleFiles` | sanic/reloader_helpers.py:9-32 | The generator's nested loops yield exactly the per-entry resolutions, in registry order. The inner walk terminates because `dirname` shrinks the path or is at a fixed point. |
| `ModuleFiles.PosixDirname` | sanic/reloader_helpers.py:26 | The POSIX parent of a path is a prefix of it. The path is its own parent exactly when it is empty or made only of '/'. |
| `ModuleFiles.PosixDirnameShrinksOrFixed` | sanic/reloader_helpers.py:24-28 | The POSIX `dirname` meets the termination condition of the walk. |
| `ModuleFiles.ThreeLevelsDeepWithoutFileYieldsNothing` | sanic/reloader_helpers.py:21-29 | With no file anywhere, the module path "a/b/c" yields nothing. The walk stops at the fixed point "". |
| `Relaunch.ArgsForReloading` | sanic/reloader_helpers.py:35-46 | Fails exactly when `argv` is empty, or `argv[0]` is "" or "-c". A `-m` program is relaunched as `[exe, "-m", name] + argv[1:]`. A script is relaunched as `[exe] + argv`. |
| `Relaunch.ChildEnv` | sanic/reloader_helpers.py:56 | The child's environment has the parent's keys plus `SANIC_SERVER_RUNNING`, which maps to "true". Every other variable is unchanged. |
| `Relaunch.RestartWithReloader` | sanic/reloader_helpers.py:49-57 | The launch request fails exactly when the arguments cannot be built. Otherwise it carries those arguments, the working directory and the marked environment. |
| `Relaunch.ChildEnvIdempotent` | sanic/reloader_helpers.py:56 | Marking an already marked environment changes nothing. |
| `Relaunch.RelaunchIsStable` | sanic/reloader_helpers.py:37-56 | A child started with the relaunch command, as the interpreter presents it to the child, would build exactly the same launch request again. |
| `ProcessKill.ChildOrder` | sanic/reloader_helpers.py:72-89 | What one listed child contributes to the kill order: its listed children, then itself; nothing without a children file. `GrandchildSignalledBeforeParent` and `KillOrderMembers` state its consequences. |
| `ProcessKill.ChildrenOrder` | sanic/reloader_helpers.py:72-89 | The contributions of the listed children, in listed order. `ChildrenOrderMembers` states who is in it. |
| `ProcessKill.UnixKillOrder` | sanic/reloader_helpers.py:66-89 | The Unix strategy's signal order: nothing without a root children file, otherwise the order of the root's listed children. `KillOrderMembers` and `GrandchildSignalledBeforeParent` state who is signalled and in what order. |
| `ProcessKill.Signals` | sanic/reloader_helpers.py:81-89 | There is one SIGTERM request per pid, in order. A pid that no longer exists is recorded as not delivered, and signalling continues. |
| `ProcessKill.KillProcessChildrenUnix` | sanic/reloader_helpers.py:60-89 | The nested loops issue exactly the SIGTERMs of `UnixKillOrder`: nothing when the root has no children file, otherwise, for each listed child with a children file, its listed children and then the child itself. |
| `ProcessKill.KillProcessChildren` | sanic/reloader_helpers.py:92-112 | On "darwin" the request is one `pkill -P pid`. On "linux" it is the Unix strategy. On any other platform nothing is requested. |
| `ProcessKill.KillTrace` | sanic/reloader_helpers.py:101-112 | The requests of the platform dispatch. Off "darwin" they are all SIGTERMs. Off both "darwin" and "linux" there are none. On "linux" there is one per pid of the Unix order. `KillProcessChildren` is proved against it. |
| `ProcessKill.ChildrenOrderAppend` | sanic/reloader_helpers.py:72-89 | The order over a concatenated child list is the concatenation of the two orders. |
| `ProcessKill.ChildrenOrderMembers` | sanic/reloader_helpers.py:72-89 | A pid is in the order exactly when it is a listed child with a children file, or is listed in such a child's file. |
| `ProcessKill.KillOrderMembers` | sanic/reloader_helpers.py:66-89 | A pid is signalled exactly when it is a listed child of the root that has a children file, or is listed in such a child's file. So a child without a file, and the root itself, are signalled only when some list names them. |
| `ProcessKill.GrandchildSignalledBeforeParent` | sanic/reloader_helpers.py:72-89 | Every grandchild is signalled at an earlier position than its parent. |
| `ProcessKill.TwoChildrenOneGrandchild` | sanic/reloader_helpers.py:66-89 | With children c1 and c2 and grandchild g1 under c1, the order is g1, c1, c2, and the root is not signalled. |
| `Watchdog.ObservePath` | sanic/reloader_helpers.py:144-154 | One path of the scan. Its entry is added when it can be stat'ed. A requested reload is never withdrawn. A reload is newly requested only for a known path whose time strictly increased. `ScanIsRefresh` states the whole scan. |
| `Watchdog.Scan` | sanic/reloader_helpers.py:141-154 | The scan of the watched paths in order, starting without a reload. `ScanIsRefresh`, `ScanIsMonotone` and `RescanIsQuiet` state what it does. |
| `Watchdog.Refreshed` | sanic/reloader_helpers.py:149-154 | After the scan, the keys are the old keys plus the seen paths. Entries never decrease. A new path holds its stat time. An entry not seen is unchanged. |
| `Watchdog.ScanIsRefresh` | sanic/reloader_helpers.py:141-154 | The in-order scan leaves the `Refreshed` table, whatever the path order and duplicates. It asks for a reload exactly when some watched, stat'able path already had an entry and now has a strictly greater time. |
| `Watchdog.FirstScanNeverReloads` | sanic/reloader_helpers.py:149-151 | A scan over an empty table only records baselines: it never asks for a reload. |
| `Watchdog.ScanIsMonotone` | sanic/reloader_helpers.py:143-154 | The table's keys only grow and its values never decrease. Paths not watched, or whose stat failed, keep their entry (or lack of one). |
| `Watchdog.RescanIsQuiet` | sanic/reloader_helpers.py:143-154 | Scanning the same files again with unchanged times asks for no reload and leaves the table as it is. |
| `Watchdog.ReloadActions` | sanic/reloader_helpers.py:156-159 | A reload first kills the children, then terminates the old worker, then launches the new worker as its last action. |
| `Watchdog.ShutdownActions` | sanic/reloader_helpers.py:115-123 | A shutdown first kills the children, then terminates the worker, then exits with status 0. |
| `Watchdog.LastLaunchedSkips` | sanic/reloader_helpers.py:157-158 | Kill, terminate and exit actions do not change which worker was launched last. |
| `Watchdog.Supervisor.constructor` | sanic/reloader_helpers.py:132-133 | The supervisor starts with an empty table, and the first worker is the only launch in the log. |
| `Watchdog.Supervisor.Start` | sanic/reloader_helpers.py:132-133 | Startup fails with the launch error, and starts no worker, exactly when the invocation cannot be reproduced. |
| `Watchdog.Supervisor.ScanFiles` | sanic/reloader_helpers.py:141-154 | The loop over the watched files updates the table in place and decides the reload exactly as `Scan` does. |
| `Watchdog.Supervisor.Step` | sanic/reloader_helpers.py:140-159 | One iteration scans the files of the registry snapshot. On a reload it appends the reload actions and the new worker becomes current. Otherwise the worker and the log are unchanged. The current worker stays the last one launched. |
| `Watchdog.Supervisor.KillProgramCompletely` | sanic/reloader_helpers.py:115-123 | The handler acts on the current worker: it kills its children, terminates it and exits with status 0, and no further iteration can run. |

## Left out

- Signal handler registration (lines 134-139) is not modelled: it is asynchronous delivery, which is concurrency. Because the lambdas read the variable `worker_process`, they act on the current worker. The model states this as `KillProgramCompletely` acting on `worker`, which `Step` replaces. `Step` is atomic in the model. In the source, a SIGINT or SIGTERM that arrives after `restart_with_reloader()` has started the new worker, but before the assignment at line 159, runs `kill_program_completely` on the old worker and then `os._exit(0)`. The new worker is then left running. That window is not modelled.
- The endless `while True` loop and `sleep(sleep_interval)` are not modelled; one iteration is modelled as `Step`.
- I/O and reflection are inputs, not modelled: `os.path.isfile`, `os.stat`, reading `/proc`, `os.getcwd`, `os.environ` and `sys.modules`.
- `subprocess.Popen`, `subprocess.run`, `os.kill`, `proc.terminate()` and `os._exit` are recorded as actions only. A launch that fails because the executable cannot be started is not modelled.
- `Watchdog.Supervisor.Step`: `os.stat` is one snapshot per iteration. A file that changes between two stats of the same path within one scan is not modelled.
- Modification times are integers. The source uses floats, but compares them only with `>`.
- The pids in a children file are naturals. A malformed file, where `int()` would raise `ValueError`, is not modelled.
- `ProcessKill.Signals`: only `ProcessLookupError` from `os.kill` is modelled (as a request not delivered). Any other error, such as `PermissionError` for a pid now owned by another user, escapes the loop in the source. It aborts the remaining signals and, on the reload path (line 157), ends `watchdog`. That outcome is not modelled.
- The race between reading a children file and signalling the pids in it is not modelled; sequentially there is nothing to race.
- `ProcessKill.KillProcessChildren`: the `pkill -P` request is recorded as one action; which processes `pkill` reaches is not modelled.
- `Relaunch.RelaunchIsStable` relies on `ChildInvocation`, which describes how the interpreter turns a command line into `sys.argv` and `__spec__`. That behaviour belongs to the interpreter and is assumed, not derived.
