/**
 * Terminating the children of a process (`kill_process_children_unix`,
 * `kill_process_children_osx`, `kill_process_children`).
 *
 * The `/proc/<pid>/task/<pid>/children` files are given as a partial map
 * from a pid to the pids listed in its file (a pid without a file has no
 * entry), and the set of pids that still exist decides whether `os.kill`
 * reaches a process or raises `ProcessLookupError`. The output is the
 * trace of requests made to the operating system.
 */
module ProcessKill {
  import opened Common

  /** The children files that exist, with the pids each one lists. */
  type ChildrenTable = map<Pid, seq<Pid>>

  /** One request to the operating system. */
  datatype KillAction =
    | SigTerm(pid: Pid, delivered: bool)  // os.kill(pid, SIGTERM); !delivered: ProcessLookupError, ignored
    | PkillChildren(parent: Pid)          // the `pkill -P <parent>` command

  /** What one direct child contributes: its own children, then itself;
      nothing when it has no children file. */
  function ChildOrder(table: ChildrenTable, child: Pid): (r: seq<Pid>)
  {
    if child in table then table[child] + [child] else []
  }

  /** The contributions of `children`, in listed order. */
  function ChildrenOrder(table: ChildrenTable, children: seq<Pid>): (r: seq<Pid>)
    decreases |children|
  {
    if children == [] then []
    else ChildrenOrder(table, children[..|children| - 1]) + ChildOrder(table, children[|children| - 1])
  }

  /** The pids the Unix strategy signals, in order; nothing when the root
      has no children file. */
  function UnixKillOrder(table: ChildrenTable, root: Pid): (r: seq<Pid>)
  {
    if root in table then ChildrenOrder(table, table[root]) else []
  }

  /** A SIGTERM for each pid in order; a pid that no longer exists is
      recorded as not delivered and the next pid is still signalled. */
  function Signals(order: seq<Pid>, alive: set<Pid>): (r: seq<KillAction>)
    ensures |r| == |order|
    ensures forall i :: 0 <= i < |r| ==> r[i] == SigTerm(order[i], order[i] in alive)
  {
    if order == [] then []
    else Signals(order[..|order| - 1], alive) + [SigTerm(order[|order| - 1], order[|order| - 1] in alive)]
  }

  lemma SignalsSnoc(order: seq<Pid>, p: Pid, alive: set<Pid>)
    ensures Signals(order + [p], alive) == Signals(order, alive) + [SigTerm(p, p in alive)]
  {
  }

  /** One more grandchild signalled. */
  lemma SignalsExtend(done: seq<Pid>, grandchildren: seq<Pid>, j: nat, alive: set<Pid>)
    requires j < |grandchildren|
    ensures Signals(done + grandchildren[..j + 1], alive) ==
            Signals(done + grandchildren[..j], alive) + [SigTerm(grandchildren[j], grandchildren[j] in alive)]
  {
  }

  /** One more listed child processed: its grandchildren were signalled,
      then it is. */
  lemma SignalsFinishChild(table: ChildrenTable, children: seq<Pid>, i: nat, alive: set<Pid>)
    requires i < |children| && children[i] in table
    ensures Signals(ChildrenOrder(table, children[..i + 1]), alive) ==
            Signals(ChildrenOrder(table, children[..i]) + table[children[i]], alive) +
            [SigTerm(children[i], children[i] in alive)]
  {
    assert children[..i + 1][..i] == children[..i];
    var done := ChildrenOrder(table, children[..i]);
    assert ChildrenOrder(table, children[..i + 1]) == (done + table[children[i]]) + [children[i]];
    SignalsSnoc(done + table[children[i]], children[i], alive);
  }

  /** The Unix strategy: for each direct child with a children file, SIGTERM
      each of its children and then the child itself. */
  method KillProcessChildrenUnix(table: ChildrenTable, alive: set<Pid>, pid: Pid)
    returns (trace: seq<KillAction>)
    ensures trace == Signals(UnixKillOrder(table, pid), alive)
  {
    trace := [];
    if pid !in table {
      return;
    }
    var children := table[pid];
    ghost var done: seq<Pid> := [];
    for i := 0 to |children|
      invariant done == ChildrenOrder(table, children[..i])
      invariant trace == Signals(done, alive)
    {
      var child := children[i];
      if child !in table {
        assert children[..i + 1][..i] == children[..i];
        continue;
      }
      var grandchildren := table[child];
      for j := 0 to |grandchildren|
        invariant trace == Signals(done + grandchildren[..j], alive)
      {
        SignalsExtend(done, grandchildren, j, alive);
        trace := trace + [SigTerm(grandchildren[j], grandchildren[j] in alive)];
      }
      assert grandchildren[..|grandchildren|] == grandchildren;
      SignalsFinishChild(table, children, i, alive);
      trace := trace + [SigTerm(child, child in alive)];
      done := ChildrenOrder(table, children[..i + 1]);
    }
    assert children[..|children|] == children;
  }

  /** The requests made for each platform: `pkill -P` on "darwin", the Unix
      strategy on "linux", none elsewhere. */
  function KillTrace(platform: string, table: ChildrenTable, alive: set<Pid>, pid: Pid): (r: seq<KillAction>)
    ensures platform != "darwin" ==> forall i :: 0 <= i < |r| ==> r[i].SigTerm?
    ensures platform != "darwin" && platform != "linux" ==> r == []
    ensures platform == "linux" ==> |r| == |UnixKillOrder(table, pid)|
  {
    if platform == "darwin" then [PkillChildren(pid)]
    else if platform == "linux" then Signals(UnixKillOrder(table, pid), alive)
    else []
  }

  /** Dispatch on the platform name. */
  method KillProcessChildren(platform: string, table: ChildrenTable, alive: set<Pid>, pid: Pid)
    returns (trace: seq<KillAction>)
    ensures platform == "darwin" ==> trace == [PkillChildren(pid)]
    ensures platform == "linux" ==> trace == Signals(UnixKillOrder(table, pid), alive)
    ensures platform != "darwin" && platform != "linux" ==> trace == []
    ensures trace == KillTrace(platform, table, alive, pid)
  {
    if platform == "darwin" {
      trace := [PkillChildren(pid)];
    } else if platform == "linux" {
      trace := KillProcessChildrenUnix(table, alive, pid);
    } else {
      trace := [];
    }
  }

  /** The order over a concatenated list is the concatenation of the orders. */
  lemma {:induction false} ChildrenOrderAppend(table: ChildrenTable, a: seq<Pid>, b: seq<Pid>)
    ensures ChildrenOrder(table, a + b) == ChildrenOrder(table, a) + ChildrenOrder(table, b)
    decreases |b|
  {
    if b == [] {
      assert a + b == a;
    } else {
      var init := b[..|b| - 1];
      assert (a + b)[..|a + b| - 1] == a + init;
      ChildrenOrderAppend(table, a, init);
    }
  }

  /** A pid is signalled for `children` exactly when it is one of them that
      has a children file, or is listed in such a child's file. */
  lemma {:induction false} ChildrenOrderMembers(table: ChildrenTable, children: seq<Pid>, p: Pid)
    ensures p in ChildrenOrder(table, children) <==>
              exists c :: c in children && c in table && (p == c || p in table[c])
    decreases |children|
  {
    if children != [] {
      var init := children[..|children| - 1];
      var last := children[|children| - 1];
      ChildrenOrderMembers(table, init, p);
      if exists c :: c in children && c in table && (p == c || p in table[c]) {
        var c :| c in children && c in table && (p == c || p in table[c]);
        if c != last {
          assert c in init;
        }
      }
    }
  }

  /** Who the Unix strategy signals: exactly the root's listed children that
      have a children file, and the pids listed in those files. In particular
      a child without a children file, and the root itself, are signalled
      only if they appear in one of those lists. */
  lemma KillOrderMembers(table: ChildrenTable, root: Pid, p: Pid)
    ensures p in UnixKillOrder(table, root) <==>
              root in table && exists c :: c in table[root] && c in table && (p == c || p in table[c])
  {
    if root in table {
      ChildrenOrderMembers(table, table[root], p);
    }
  }

  /** The order splits around the `i`-th listed child. */
  lemma ChildrenOrderSplit(table: ChildrenTable, children: seq<Pid>, i: nat)
    requires i < |children|
    ensures ChildrenOrder(table, children) ==
            ChildrenOrder(table, children[..i]) + ChildOrder(table, children[i]) + ChildrenOrder(table, children[i + 1..])
  {
    assert children == children[..i + 1] + children[i + 1..];
    ChildrenOrderAppend(table, children[..i + 1], children[i + 1..]);
    assert children[..i + 1][..i] == children[..i];
  }

  /** Every grandchild is signalled before its parent. */
  lemma GrandchildSignalledBeforeParent(table: ChildrenTable, root: Pid, c: Pid, g: Pid)
    requires root in table && c in table[root] && c in table && g in table[c]
    ensures exists j, k :: 0 <= j < k < |UnixKillOrder(table, root)| &&
                           UnixKillOrder(table, root)[j] == g && UnixKillOrder(table, root)[k] == c
  {
    var children := table[root];
    var i :| 0 <= i < |children| && children[i] == c;
    ChildrenOrderSplit(table, children, i);
    var before := ChildrenOrder(table, children[..i]);
    var after := ChildrenOrder(table, children[i + 1..]);
    var grandchildren := table[c];
    var order := UnixKillOrder(table, root);
    var middle := grandchildren + [c];
    var left := before + middle;
    assert order == left + after;
    var m :| 0 <= m < |grandchildren| && grandchildren[m] == g;
    assert middle[m] == g && middle[|grandchildren|] == c;
    assert left[|before| + m] == g && left[|before| + |grandchildren|] == c;
    assert order[|before| + m] == g && order[|before| + |grandchildren|] == c;
  }

  /** The layout described for a root with children c1, c2 and a
      grandchild g1 under c1: g1, then c1, then c2. */
  lemma TwoChildrenOneGrandchild(root: Pid, c1: Pid, c2: Pid, g1: Pid)
    requires |{root, c1, c2, g1}| == 4
    ensures UnixKillOrder(map[root := [c1, c2], c1 := [g1], c2 := []], root) == [g1, c1, c2]
  {
    var table := map[root := [c1, c2], c1 := [g1], c2 := []];
    assert [c1, c2][..1] == [c1];
    assert [c1][..0] == [];
    assert ChildrenOrder(table, [c1]) == [g1, c1];
  }
}
