/**
 * The file set the reloader watches (`_iter_module_files`).
 *
 * Every entry of the module registry snapshot (`list(sys.modules.values())`)
 * is turned into the path of the file to watch, or into nothing. The file
 * system is given as two functions: `isfile` (`os.path.isfile`) and
 * `dirname` (`os.path.dirname`).
 */
module ModuleFiles {
  import opened Common

  /** A loaded module; `file` is its `__file__` attribute, when it has one. */
  datatype LoadedModule = LoadedModule(file: Option<string>)

  /** The registry snapshot: `None` stands for a `None` entry of `sys.modules`. */
  type Registry = seq<Option<LoadedModule>>

  /** `dirname` either returns a strictly shorter path or is at a fixed point;
      this is what makes the walk up the directory chain terminate. */
  ghost predicate ShrinksOrFixed(dirname: string -> string) {
    forall p :: dirname(p) == p || |dirname(p)| < |p|
  }

  /** `dirname` applied `k` times to `p`. */
  function Iterate(dirname: string -> string, k: nat, p: string): string {
    if k == 0 then p else dirname(Iterate(dirname, k - 1, p))
  }

  lemma {:induction false} IterateShift(dirname: string -> string, k: nat, p: string)
    ensures Iterate(dirname, k + 1, p) == Iterate(dirname, k, dirname(p))
  {
    if k > 0 {
      IterateShift(dirname, k - 1, p);
    }
  }

  lemma {:induction false} IterateFixed(dirname: string -> string, k: nat, p: string)
    requires dirname(p) == p
    ensures Iterate(dirname, k, p) == p
  {
    if k > 0 {
      IterateFixed(dirname, k - 1, p);
    }
  }

  /** The walk up the directory chain: the first of `p`, `dirname(p)`, ...
      that is a file, or nothing once `dirname` stops changing the path. */
  function FindFile(isfile: string -> bool, dirname: string -> string, p: string): (r: Option<string>)
    requires ShrinksOrFixed(dirname)
    ensures r.Some? ==> isfile(r.value) && |r.value| <= |p|
    decreases |p|
  {
    if isfile(p) then Some(p)
    else
      var parent := dirname(p);
      if parent == p then None else FindFile(isfile, dirname, parent)
  }

  /** The `k`-th iterated parent of `p` is a file and no earlier one is. */
  ghost predicate FirstFileAt(isfile: string -> bool, dirname: string -> string, p: string, k: nat) {
    isfile(Iterate(dirname, k, p)) && forall j: nat :: j < k ==> !isfile(Iterate(dirname, j, p))
  }

  /** The walk finds exactly the first file among the iterated parents of `p`,
      and finds nothing exactly when no iterated parent is a file. */
  lemma {:induction false} FindFileIsFirstFileAncestor(isfile: string -> bool, dirname: string -> string, p: string)
    requires ShrinksOrFixed(dirname)
    ensures FindFile(isfile, dirname, p).Some? ==>
              exists k: nat :: FirstFileAt(isfile, dirname, p, k) &&
                               Iterate(dirname, k, p) == FindFile(isfile, dirname, p).value
    ensures FindFile(isfile, dirname, p).None? <==> forall k: nat :: !isfile(Iterate(dirname, k, p))
    decreases |p|
  {
    if isfile(p) {
      assert Iterate(dirname, 0, p) == p;
      assert FirstFileAt(isfile, dirname, p, 0);
    } else {
      var parent := dirname(p);
      if parent == p {
        forall k: nat ensures !isfile(Iterate(dirname, k, p)) {
          IterateFixed(dirname, k, p);
        }
      } else {
        FindFileIsFirstFileAncestor(isfile, dirname, parent);
        assert FindFile(isfile, dirname, p) == FindFile(isfile, dirname, parent);
        if FindFile(isfile, dirname, parent).Some? {
          var k: nat :| FirstFileAt(isfile, dirname, parent, k) &&
                        Iterate(dirname, k, parent) == FindFile(isfile, dirname, parent).value;
          IterateShift(dirname, k, p);
          forall j: nat | j < k + 1 ensures !isfile(Iterate(dirname, j, p)) {
            if j > 0 {
              IterateShift(dirname, j - 1, p);
            }
          }
          assert FirstFileAt(isfile, dirname, p, k + 1);
        } else {
          forall k: nat ensures !isfile(Iterate(dirname, k, p)) {
            if k > 0 {
              IterateShift(dirname, k - 1, p);
            }
          }
        }
      }
    }
  }

  /** The last four characters are `.pyc` or `.pyo` (Python's `filename[-4:]`). */
  predicate HasBytecodeSuffix(f: string) {
    |f| >= 4 && (f[|f| - 4..] == ".pyc" || f[|f| - 4..] == ".pyo")
  }

  /** A bytecode path is rewritten to its source path by dropping the final
      character; any other path is kept. The result is never a bytecode path. */
  function SourcePath(f: string): (r: string)
    ensures HasBytecodeSuffix(f) ==> r + [f[|f| - 1]] == f && r[|r| - 3..] == ".py"
    ensures !HasBytecodeSuffix(f) ==> r == f
    ensures !HasBytecodeSuffix(r)
  {
    if HasBytecodeSuffix(f) then
      var r := f[..|f| - 1];
      assert r[|r| - 1] == 'y';
      r
    else f
  }

  /** What one registry entry contributes: nothing for a `None` entry or a
      missing or empty `__file__`, else the rewritten result of the walk. */
  function ModuleFile(entry: Option<LoadedModule>, isfile: string -> bool, dirname: string -> string)
    : (r: Option<string>)
    requires ShrinksOrFixed(dirname)
  {
    match entry
    case None => None
    case Some(loaded) =>
      match loaded.file
      case None => None
      case Some(name) =>
        if name == "" then None
        else
          match FindFile(isfile, dirname, name)
          case None => None
          case Some(f) => Some(SourcePath(f))
  }

  /** Everything the generator yields, in registry order. */
  function ModuleFilesOf(registry: Registry, isfile: string -> bool, dirname: string -> string)
    : (r: seq<string>)
    requires ShrinksOrFixed(dirname)
    ensures |r| <= |registry|
  {
    if registry == [] then []
    else
      ModuleFilesOf(registry[..|registry| - 1], isfile, dirname) +
      match ModuleFile(registry[|registry| - 1], isfile, dirname)
      case None => []
      case Some(f) => [f]
  }

  /** An entry yields a path exactly when it has a non-empty `__file__` some
      iterated parent of which is a file; the path is the source path of the
      first such parent. */
  lemma {:induction false} ModuleFileResolution(entry: Option<LoadedModule>, isfile: string -> bool, dirname: string -> string)
    requires ShrinksOrFixed(dirname)
    ensures ModuleFile(entry, isfile, dirname).None? <==>
              || entry.None?
              || entry.value.file.None?
              || entry.value.file.value == ""
              || forall k: nat :: !isfile(Iterate(dirname, k, entry.value.file.value))
    ensures ModuleFile(entry, isfile, dirname).Some? ==>
              var name := entry.value.file.value;
              exists k: nat :: FirstFileAt(isfile, dirname, name, k) &&
                               ModuleFile(entry, isfile, dirname).value == SourcePath(Iterate(dirname, k, name))
  {
    if entry.Some? && entry.value.file.Some? && entry.value.file.value != "" {
      var name := entry.value.file.value;
      FindFileIsFirstFileAncestor(isfile, dirname, name);
    }
  }

  /** Every yielded path comes from some registry entry. */
  lemma {:induction false} ModuleFilesOfSound(registry: Registry, isfile: string -> bool, dirname: string -> string, f: string)
    requires ShrinksOrFixed(dirname)
    requires f in ModuleFilesOf(registry, isfile, dirname)
    ensures exists i :: 0 <= i < |registry| && ModuleFile(registry[i], isfile, dirname) == Some(f)
  {
    var init := registry[..|registry| - 1];
    if f in ModuleFilesOf(init, isfile, dirname) {
      ModuleFilesOfSound(init, isfile, dirname, f);
      var i :| 0 <= i < |init| && ModuleFile(init[i], isfile, dirname) == Some(f);
      assert registry[i] == init[i];
    } else {
      assert ModuleFile(registry[|registry| - 1], isfile, dirname) == Some(f);
    }
  }

  /** Every registry entry that resolves to a path has that path yielded. */
  lemma {:induction false} ModuleFilesOfComplete(registry: Registry, isfile: string -> bool, dirname: string -> string, i: nat)
    requires ShrinksOrFixed(dirname)
    requires i < |registry| && ModuleFile(registry[i], isfile, dirname).Some?
    ensures ModuleFile(registry[i], isfile, dirname).value in ModuleFilesOf(registry, isfile, dirname)
  {
    var init := registry[..|registry| - 1];
    if i < |init| {
      assert init[i] == registry[i];
      ModuleFilesOfComplete(init, isfile, dirname, i);
    }
  }

  /** A path is yielded exactly when some registry entry resolves to it. */
  lemma ModuleFilesOfMembers(registry: Registry, isfile: string -> bool, dirname: string -> string, f: string)
    requires ShrinksOrFixed(dirname)
    ensures f in ModuleFilesOf(registry, isfile, dirname) <==>
              exists i :: 0 <= i < |registry| && ModuleFile(registry[i], isfile, dirname) == Some(f)
  {
    if f in ModuleFilesOf(registry, isfile, dirname) {
      ModuleFilesOfSound(registry, isfile, dirname, f);
    }
    if exists i :: 0 <= i < |registry| && ModuleFile(registry[i], isfile, dirname) == Some(f) {
      var i :| 0 <= i < |registry| && ModuleFile(registry[i], isfile, dirname) == Some(f);
      ModuleFilesOfComplete(registry, isfile, dirname, i);
    }
  }

  /** The generator: one pass over the registry snapshot, walking each
      `__file__` up until a file is found or `dirname` reaches a fixed point. */
  method IterModuleFiles(registry: Registry, isfile: string -> bool, dirname: string -> string)
    returns (files: seq<string>)
    requires ShrinksOrFixed(dirname)
    ensures files == ModuleFilesOf(registry, isfile, dirname)
  {
    files := [];
    for i := 0 to |registry|
      invariant files == ModuleFilesOf(registry[..i], isfile, dirname)
    {
      assert registry[..i + 1][..i] == registry[..i];
      var entry := registry[i];
      if entry.None? {
        continue;
      }
      var name := entry.value.file;
      if name.None? || name.value == "" {
        continue;
      }
      var filename := name.value;
      var found := true;
      while !isfile(filename)
        invariant FindFile(isfile, dirname, filename) == FindFile(isfile, dirname, name.value)
        decreases |filename|
      {
        var previous := filename;
        filename := dirname(filename);
        if filename == previous {
          found := false;
          break;
        }
      }
      if found {
        files := files + [SourcePath(filename)];
      }
    }
    assert registry[..|registry|] == registry;
  }

  // The POSIX `os.path.dirname`: keep everything up to and including the
  // last '/', then drop trailing '/'s unless the kept head is all '/'s.

  /** One past the position of the last '/' in `p`, or 0 when there is none. */
  function LastSepEnd(p: string): (i: nat)
    ensures i <= |p|
    ensures i > 0 ==> p[i - 1] == '/'
    ensures forall j :: i <= j < |p| ==> p[j] != '/'
  {
    if |p| == 0 then 0
    else if p[|p| - 1] == '/' then |p|
    else LastSepEnd(p[..|p| - 1])
  }

  predicate AllSep(s: string) {
    forall j :: 0 <= j < |s| ==> s[j] == '/'
  }

  /** `s.rstrip('/')`. */
  function RStripSep(s: string): (r: string)
    ensures r <= s
    ensures r == [] || r[|r| - 1] != '/'
    ensures forall j :: |r| <= j < |s| ==> s[j] == '/'
  {
    if |s| > 0 && s[|s| - 1] == '/' then RStripSep(s[..|s| - 1]) else s
  }

  /** The parent of a path is a prefix of it, and the path is its own
      parent exactly when it is empty or consists only of '/'s. */
  function PosixDirname(p: string): (r: string)
    ensures r <= p
    ensures r == p <==> AllSep(p)
  {
    var head := p[..LastSepEnd(p)];
    if |head| > 0 && !AllSep(head) then RStripSep(head) else head
  }

  /** The POSIX `dirname` satisfies what the walk needs to terminate. */
  lemma PosixDirnameShrinksOrFixed()
    ensures ShrinksOrFixed(PosixDirname)
  {
  }

  /** A module path three directories deep with no existing file anywhere
      yields nothing: the walk ends at the fixed point "". */
  lemma ThreeLevelsDeepWithoutFileYieldsNothing()
    ensures ShrinksOrFixed(PosixDirname)
    ensures ModuleFile(Some(LoadedModule(Some("a/b/c"))), _ => false, PosixDirname) == None
  {
    PosixDirnameShrinksOrFixed();
    assert LastSepEnd("a/b/c") == LastSepEnd("a/b/") == 4;
    assert "a/b/"[0] == 'a' && "a/b/"[..3] == "a/b" && "a/b"[2] == 'b';
    assert !AllSep("a/b/") && RStripSep("a/b/") == RStripSep("a/b") == "a/b";
    assert "a/b/c"[..4] == "a/b/";
    assert PosixDirname("a/b/c") == "a/b";
    assert LastSepEnd("a/b") == LastSepEnd("a/") == 2;
    assert "a/"[0] == 'a' && "a/"[..1] == "a" && "a"[0] == 'a';
    assert !AllSep("a/") && RStripSep("a/") == RStripSep("a") == "a";
    assert "a/b"[..2] == "a/";
    assert PosixDirname("a/b") == "a";
    assert PosixDirname("a") == "";
    assert PosixDirname("") == "";
  }
}
