/** The walks of the tree methods, one child at a time. */
module TreeWalks {
  import opened Forest
  import opened ProcessData
  import opened Wrappers

  /** The solver walk over the first i children of a process. */
  ghost function SolverKids(v: Records, rank: Pid -> nat, pid: Pid, i: nat): seq<Pid>
    requires Acyclic(Links(v), rank) && Acyclic(Solver(v), rank)
    requires pid in v && i <= |v[pid].children|
  {
    ProcessesBelow(v, rank, pid, i);
    WalkAll(Solver(v), rank, rank(pid), Processes(v, v[pid].children[..i]))
  }

  lemma ProcessesBelow(v: Records, rank: Pid -> nat, pid: Pid, i: nat)
    requires Acyclic(Links(v), rank) && pid in v && i <= |v[pid].children|
    ensures Below(rank, rank(pid), Processes(v, v[pid].children[..i]))
  {
    forall c | c in Processes(v, v[pid].children[..i]) ensures rank(c) < rank(pid) {
      ProcessesMembers(v, v[pid].children[..i], c);
      assert c in Links(v)[pid];
    }
  }

  lemma SolverKidsStep(v: Records, rank: Pid -> nat, pid: Pid, i: nat)
    requires Acyclic(Links(v), rank) && Acyclic(Solver(v), rank)
    requires pid in v && i < |v[pid].children|
    ensures var c := v[pid].children[i];
            && rank(c) < rank(pid)
            && SolverKids(v, rank, pid, i + 1)
               == if c in v && !v[c].IsTask() then SolverKids(v, rank, pid, i) + Walk(Solver(v), rank, c)
                  else SolverKids(v, rank, pid, i)
  {
    var cs := v[pid].children;
    assert cs[i] in Links(v)[pid];
    assert cs[..i + 1][..i] == cs[..i];
    ProcessesBelow(v, rank, pid, i);
    ProcessesBelow(v, rank, pid, i + 1);
    if !(cs[i] in v && !v[cs[i]].IsTask()) {
      assert Processes(v, cs[..i + 1]) == Processes(v, cs[..i]);
    } else {
      assert (Processes(v, cs[..i]) + [cs[i]])[..|Processes(v, cs[..i])|] == Processes(v, cs[..i]);
    }
  }

  lemma SolverWalkEnds(v: Records, rank: Pid -> nat, pid: Pid)
    requires Acyclic(Links(v), rank) && Acyclic(Solver(v), rank)
    ensures if pid in v && v[pid].valid
            then && SolverKids(v, rank, pid, 0) == []
                 && Walk(Solver(v), rank, pid) == SolverKids(v, rank, pid, |v[pid].children|) + [pid]
            else Walk(Solver(v), rank, pid) == []
  {
    if pid in v && v[pid].valid {
      assert v[pid].children[..|v[pid].children|] == v[pid].children;
    }
  }

  /** The walk over the first i children that a graph gives a process. */
  ghost function GraphKids(g: Graph, rank: Pid -> nat, pid: Pid, i: nat): seq<Pid>
    requires Acyclic(g, rank) && pid in g && i <= |g[pid]|
  {
    WalkAll(g, rank, rank(pid), g[pid][..i])
  }

  /** What a walk from a process has visited before it goes on to child number i, the process included. */
  ghost function Visited(g: Graph, rank: Pid -> nat, pid: Pid, i: nat): set<Pid>
    requires Acyclic(g, rank) && pid in g && i <= |g[pid]|
  {
    {pid} + Elements(GraphKids(g, rank, pid, i))
  }

  lemma VisitedStep(g: Graph, rank: Pid -> nat, pid: Pid, i: nat)
    requires Acyclic(g, rank) && pid in g && i < |g[pid]|
    ensures rank(g[pid][i]) < rank(pid)
    ensures Visited(g, rank, pid, i + 1) == Visited(g, rank, pid, i) + Elements(Walk(g, rank, g[pid][i]))
  {
    assert g[pid][..i + 1][..i] == g[pid][..i];
  }

  lemma VisitedEnds(g: Graph, rank: Pid -> nat, pid: Pid)
    requires Acyclic(g, rank)
    ensures if pid in g
            then && Visited(g, rank, pid, 0) == {pid}
                 && Visited(g, rank, pid, |g[pid]|) == Elements(Walk(g, rank, pid))
            else Elements(Walk(g, rank, pid)) == {}
  {
    if pid in g {
      assert g[pid][..|g[pid]|] == g[pid];
    }
  }

  /** The walk over one more root. */
  lemma RootsStep(g: Graph, rank: Pid -> nat, bound: nat, roots: seq<Pid>, i: nat)
    requires Acyclic(g, rank) && Below(rank, bound, roots) && i < |roots|
    ensures Below(rank, bound, roots[..i]) && Below(rank, bound, roots[..i + 1])
    ensures WalkAll(g, rank, bound, roots[..i + 1]) == WalkAll(g, rank, bound, roots[..i]) + Walk(g, rank, roots[i])
    ensures Elements(WalkAll(g, rank, bound, roots[..i + 1]))
            == Elements(WalkAll(g, rank, bound, roots[..i])) + Elements(Walk(g, rank, roots[i]))
  {
    assert roots[..i + 1][..i] == roots[..i];
  }
}

/** The map from pid to process record, and the recursive walks over it. */
module ProcessTree {
  import opened Forest
  import opened ProcessData
  import opened Wrappers
  import opened TreeWalks
  import opened Readings
  import opened ProcessUpdate
  import opened ProcessSnapshot
  import opened FullRead

  /** One call of kill(2). */
  datatype Kill = Kill(pid: Pid, sig: int)

  function Kills(ps: seq<Pid>, sig: int): seq<Kill> {
    seq(|ps|, i requires 0 <= i < |ps| => Kill(ps[i], sig))
  }

  lemma KillsAppend(log: seq<Kill>, a: seq<Pid>, b: seq<Pid>, sig: int)
    ensures log + Kills(a + b, sig) == log + Kills(a, sig) + Kills(b, sig)
    ensures Kills([], sig) == [] && log + [] == log
  {
    assert Kills(a + b, sig) == Kills(a, sig) + Kills(b, sig);
  }

  lemma KillsAre(ps: seq<Pid>, sig: int)
    ensures |Kills(ps, sig)| == |ps| && forall i :: 0 <= i < |ps| ==> Kills(ps, sig)[i] == Kill(ps[i], sig)
  {}

  lemma EmptyTotal(v: Records, f: ProcessData -> int)
    ensures Total(v, f, []) == 0
  {}

  lemma TotalEnds(v: Records, f: ProcessData -> int, ps: seq<Pid>, pid: Pid)
    ensures Total(v, f, ps + [pid]) == Total(v, f, ps) + Figure(v, f, pid)
  {}

  /** What every walk needs: ranks that fall from parent to child. */
  ghost predicate Tame(v: Records, rank: Pid -> nat) {
    Acyclic(Links(v), rank) && Acyclic(Solver(v), rank) && Acyclic(Listed(v), rank)
  }

  /** A tree whose walks end, with its roots ranked below runsolver. */
  ghost predicate TameTree(v: Records, roots: seq<Pid>, rank: Pid -> nat, top: Pid) {
    Tame(v, rank) && Below(rank, rank(top), roots)
  }

  lemma TreeIsTame(v: Records, roots: seq<Pid>, rank: Pid -> nat, up: Pid -> Pid, top: Pid)
    requires SolverTree(v, roots, rank, up, top)
    ensures TameTree(v, roots, rank, top)
  {
    GraphsAreAcyclic(v, rank);
  }

  lemma EachCountsOnce(v: Records, roots: seq<Pid>, rank: Pid -> nat, up: Pid -> Pid, top: Pid, f: ProcessData -> int)
    requires TameTree(v, roots, rank, top)
    ensures SolverTree(v, roots, rank, up, top)
            ==> Total(v, f, Victims(v, rank, top, roots)) == SetTotal(v, f, SolverSet(v, rank, top, roots))
  {
    if SolverTree(v, roots, rank, up, top) {
      TotalsCountEachProcessOnce(v, roots, rank, up, top, f);
    }
  }

  /** No null entry is the parent of a valid process: the C++ code would dereference it. */
  ghost predicate NoNullParent(tree: ProcMap) {
    var v := View(tree);
    forall q :: q in v && v[q].valid ==> IsNoNull(tree, v[q].info.ppid)
  }

  predicate IsNoNull(tree: ProcMap, p: Pid) {
    p != NO_PARENT && p in tree ==> tree[p].Some?
  }

  class ProcessTree {
    var tree: ProcMap
    var roots: seq<Pid> // children of runsolver
    var treeHasAllProcesses: bool
    var runsolverPID: Pid

    ghost var rank: Pid -> nat
    ghost var up: Pid -> Pid
    ghost var killed: seq<Kill> // log of the signals sent

    ghost predicate Valid()
      reads this
    {
      SolverTree(View(tree), roots, rank, up, runsolverPID)
    }

    constructor ()
      ensures Valid() && View(tree) == map[] && roots == [] && killed == []
      ensures !treeHasAllProcesses && runsolverPID == NO_PARENT
    {
      tree, roots, treeHasAllProcesses, runsolverPID := map[], [], false, NO_PARENT;
      rank, up, killed := p => 0, p => p, [];
    }

    method SetRunsolverPID(pid: Pid)
      modifies `runsolverPID
      ensures runsolverPID == pid
      ensures old(Valid()) && roots == [] ==> Valid()
    {
      runsolverPID := pid;
    }

    /** Whether runsolver has no child left. */
    predicate SolverEnded()
      reads this
    {
      roots == []
    }

    /** operator[] of the C++ map. */
    method Lookup(pid: Pid) returns (data: Option<ProcessData>)
      modifies `tree
      ensures View(tree) == old(View(tree))
      ensures data == if pid in View(tree) then Some(View(tree)[pid]) else None
    {
      if pid !in tree {
        tree := tree[pid := None];
      }
      data := tree[pid];
    }

    method CurrentVSizeRec(pid: Pid) returns (sum: int)
      requires Tame(View(tree), rank)
      modifies `tree
      ensures View(tree) == old(View(tree))
      ensures sum == Total(View(tree), VSizeOf, Walk(Solver(View(tree)), rank, pid))
      decreases rank(pid)
    {
      hide View, Walk, WalkAll, Total, Solver, Listed, Links, SolverKids;
      ghost var v := View(tree);
      SolverWalkEnds(v, rank, pid);
      EmptyTotal(v, VSizeOf);
      var data := Lookup(pid);
      if data.None? || !data.value.valid {
        return 0; // unknown or not read: counts nothing
      }
      sum := data.value.VSize();
      for i := 0 to |data.value.children|
        invariant View(tree) == v
        invariant sum == data.value.VSize() + Total(v, VSizeOf, SolverKids(v, rank, pid, i))
      {
        var childpid := data.value.children[i];
        SolverKidsStep(v, rank, pid, i);
        var child := Lookup(childpid);
        if child.Some? && !child.value.IsTask() {
          var part := CurrentVSizeRec(childpid);
          TotalAppend(v, VSizeOf, SolverKids(v, rank, pid, i), Walk(Solver(v), rank, childpid));
          sum := sum + part;
        }
      }
      TotalEnds(v, VSizeOf, SolverKids(v, rank, pid, |data.value.children|), pid);
    }

    method CurrentVSize() returns (sum: int)
      requires TameTree(View(tree), roots, rank, runsolverPID)
      modifies `tree
      ensures View(tree) == old(View(tree))
      ensures sum == Total(View(tree), VSizeOf, Victims(View(tree), rank, runsolverPID, roots))
      ensures Valid() ==> sum == SetTotal(View(tree), VSizeOf, SolverSet(View(tree), rank, runsolverPID, roots))
    {
      hide View, Walk, WalkAll, Total, Solver, Listed, Links, SolverTree, SetTotal, SolverSet;
      ghost var v := View(tree);
      sum := 0;
      EmptyTotal(v, VSizeOf);
      NoRoots(Solver(v), rank, rank(runsolverPID), roots);
      for i := 0 to |roots|
        invariant View(tree) == v && Below(rank, rank(runsolverPID), roots[..i])
        invariant sum == Total(v, VSizeOf, WalkAll(Solver(v), rank, rank(runsolverPID), roots[..i]))
      {
        var part := CurrentVSizeRec(roots[i]);
        RootsStep(Solver(v), rank, rank(runsolverPID), roots, i);
        TotalAppend(v, VSizeOf, WalkAll(Solver(v), rank, rank(runsolverPID), roots[..i]),
                    Walk(Solver(v), rank, roots[i]));
        sum := sum + part;
      }
      assert roots[..|roots|] == roots;
      EachCountsOnce(v, roots, rank, up, runsolverPID, VSizeOf);
    }

    method CurrentMemoryRec(pid: Pid) returns (sum: int)
      requires Tame(View(tree), rank)
      modifies `tree
      ensures View(tree) == old(View(tree))
      ensures sum == Total(View(tree), MemoryOf, Walk(Solver(View(tree)), rank, pid))
      decreases rank(pid)
    {
      hide View, Walk, WalkAll, Total, Solver, Listed, Links, SolverKids;
      ghost var v := View(tree);
      SolverWalkEnds(v, rank, pid);
      EmptyTotal(v, MemoryOf);
      var data := Lookup(pid);
      if data.None? || !data.value.valid {
        return 0; // unknown or not read: counts nothing
      }
      sum := data.value.Memory();
      for i := 0 to |data.value.children|
        invariant View(tree) == v
        invariant sum == data.value.Memory() + Total(v, MemoryOf, SolverKids(v, rank, pid, i))
      {
        var childpid := data.value.children[i];
        SolverKidsStep(v, rank, pid, i);
        var child := Lookup(childpid);
        if child.Some? && !child.value.IsTask() {
          var part := CurrentMemoryRec(childpid);
          TotalAppend(v, MemoryOf, SolverKids(v, rank, pid, i), Walk(Solver(v), rank, childpid));
          sum := sum + part;
        }
      }
      TotalEnds(v, MemoryOf, SolverKids(v, rank, pid, |data.value.children|), pid);
    }

    method CurrentMemory() returns (sum: int)
      requires TameTree(View(tree), roots, rank, runsolverPID)
      modifies `tree
      ensures View(tree) == old(View(tree))
      ensures sum == Total(View(tree), MemoryOf, Victims(View(tree), rank, runsolverPID, roots))
      ensures Valid() ==> sum == SetTotal(View(tree), MemoryOf, SolverSet(View(tree), rank, runsolverPID, roots))
    {
      hide View, Walk, WalkAll, Total, Solver, Listed, Links, SolverTree, SetTotal, SolverSet;
      ghost var v := View(tree);
      sum := 0;
      EmptyTotal(v, MemoryOf);
      NoRoots(Solver(v), rank, rank(runsolverPID), roots);
      for i := 0 to |roots|
        invariant View(tree) == v && Below(rank, rank(runsolverPID), roots[..i])
        invariant sum == Total(v, MemoryOf, WalkAll(Solver(v), rank, rank(runsolverPID), roots[..i]))
      {
        var part := CurrentMemoryRec(roots[i]);
        RootsStep(Solver(v), rank, rank(runsolverPID), roots, i);
        TotalAppend(v, MemoryOf, WalkAll(Solver(v), rank, rank(runsolverPID), roots[..i]),
                    Walk(Solver(v), rank, roots[i]));
        sum := sum + part;
      }
      assert roots[..|roots|] == roots;
      EachCountsOnce(v, roots, rank, up, runsolverPID, MemoryOf);
    }

    /** Adds the times of a subtree to both arguments. */
    method CurrentCPUTimeRec(pid: Pid, userTime: int, systemTime: int) returns (user: int, system: int)
      requires Tame(View(tree), rank)
      modifies `tree
      ensures View(tree) == old(View(tree))
      ensures user == userTime + Total(View(tree), UserTimeOf, Walk(Solver(View(tree)), rank, pid))
      ensures system == systemTime + Total(View(tree), SystemTimeOf, Walk(Solver(View(tree)), rank, pid))
      decreases rank(pid)
    {
      hide View, Walk, WalkAll, Total, Solver, Listed, Links, SolverKids;
      ghost var v := View(tree);
      SolverWalkEnds(v, rank, pid);
      EmptyTotal(v, UserTimeOf);
      EmptyTotal(v, SystemTimeOf);
      user, system := userTime, systemTime;
      var data := Lookup(pid);
      if data.None? || !data.value.valid {
        return;
      }
      user, system := user + data.value.UserTime(), system + data.value.SystemTime();
      for i := 0 to |data.value.children|
        invariant View(tree) == v
        invariant user == userTime + data.value.UserTime() + Total(v, UserTimeOf, SolverKids(v, rank, pid, i))
        invariant system == systemTime + data.value.SystemTime() + Total(v, SystemTimeOf, SolverKids(v, rank, pid, i))
      {
        var childpid := data.value.children[i];
        SolverKidsStep(v, rank, pid, i);
        var child := Lookup(childpid);
        if child.Some? && !child.value.IsTask() {
          user, system := CurrentCPUTimeRec(childpid, user, system);
          TotalAppend(v, UserTimeOf, SolverKids(v, rank, pid, i), Walk(Solver(v), rank, childpid));
          TotalAppend(v, SystemTimeOf, SolverKids(v, rank, pid, i), Walk(Solver(v), rank, childpid));
        }
      }
      TotalEnds(v, UserTimeOf, SolverKids(v, rank, pid, |data.value.children|), pid);
      TotalEnds(v, SystemTimeOf, SolverKids(v, rank, pid, |data.value.children|), pid);
    }

    method CurrentCPUTime() returns (user: int, system: int)
      requires TameTree(View(tree), roots, rank, runsolverPID)
      modifies `tree
      ensures View(tree) == old(View(tree))
      ensures user == Total(View(tree), UserTimeOf, Victims(View(tree), rank, runsolverPID, roots))
      ensures system == Total(View(tree), SystemTimeOf, Victims(View(tree), rank, runsolverPID, roots))
      ensures Valid() ==> && user == SetTotal(View(tree), UserTimeOf, SolverSet(View(tree), rank, runsolverPID, roots))
                          && system == SetTotal(View(tree), SystemTimeOf,
                                                SolverSet(View(tree), rank, runsolverPID, roots))
    {
      hide View, Walk, WalkAll, Total, Solver, Listed, Links, SolverTree, SetTotal, SolverSet;
      ghost var v, bound := View(tree), rank(runsolverPID);
      user, system := 0, 0;
      EmptyTotal(v, UserTimeOf);
      EmptyTotal(v, SystemTimeOf);
      NoRoots(Solver(v), rank, bound, roots);
      for i := 0 to |roots|
        invariant View(tree) == v && Below(rank, bound, roots[..i])
        invariant user == Total(v, UserTimeOf, WalkAll(Solver(v), rank, bound, roots[..i]))
        invariant system == Total(v, SystemTimeOf, WalkAll(Solver(v), rank, bound, roots[..i]))
      {
        user, system := CurrentCPUTimeRec(roots[i], user, system);
        RootsStep(Solver(v), rank, bound, roots, i);
        TotalAppend(v, UserTimeOf, WalkAll(Solver(v), rank, bound, roots[..i]), Walk(Solver(v), rank, roots[i]));
        TotalAppend(v, SystemTimeOf, WalkAll(Solver(v), rank, bound, roots[..i]), Walk(Solver(v), rank, roots[i]));
      }
      assert roots[..|roots|] == roots;
      EachCountsOnce(v, roots, rank, up, runsolverPID, UserTimeOf);
      EachCountsOnce(v, roots, rank, up, runsolverPID, SystemTimeOf);
    }

    /** Signals a process after all its children; the 20 ms pause for the father is not modelled. */
    method SendSignalBottomUpRec(pid: Pid, sig: int)
      requires Tame(View(tree), rank)
      modifies `tree, `killed
      ensures View(tree) == old(View(tree))
      ensures killed == old(killed) + Kills(Walk(Solver(View(tree)), rank, pid), sig)
      decreases rank(pid)
    {
      hide View, Walk, WalkAll, Solver, Listed, Links, SolverKids, Kills;
      ghost var v, log := View(tree), killed;
      SolverWalkEnds(v, rank, pid);
      KillsAppend(log, [], [], sig);
      var data := Lookup(pid);
      if data.None? || !data.value.valid {
        return; // unknown or not read: gets no signal
      }
      for i := 0 to |data.value.children|
        invariant View(tree) == v
        invariant killed == log + Kills(SolverKids(v, rank, pid, i), sig)
      {
        var childpid := data.value.children[i];
        SolverKidsStep(v, rank, pid, i);
        var child := Lookup(childpid);
        if child.Some? && !child.value.IsTask() {
          SendSignalBottomUpRec(childpid, sig);
          KillsAppend(log, SolverKids(v, rank, pid, i), Walk(Solver(v), rank, childpid), sig);
        }
      }
      KillsAppend(log, SolverKids(v, rank, pid, |data.value.children|), [pid], sig);
      OneKill(pid, sig);
      killed := killed + [Kill(pid, sig)];
    }

    method SendSignalBottomUp(sig: int)
      requires TameTree(View(tree), roots, rank, runsolverPID)
      modifies `tree, `killed
      ensures View(tree) == old(View(tree))
      ensures killed == old(killed) + Kills(Victims(View(tree), rank, runsolverPID, roots), sig)
      ensures var victims := Victims(View(tree), rank, runsolverPID, roots);
              && |killed| == |old(killed)| + |victims|
              && forall i :: 0 <= i < |victims| ==> killed[|old(killed)| + i] == Kill(victims[i], sig)
    {
      hide View, Walk, WalkAll, Solver, Listed, Links, Kills;
      ghost var v, log, bound := View(tree), killed, rank(runsolverPID);
      KillsAppend(log, [], [], sig);
      NoRoots(Solver(v), rank, bound, roots);
      for i := 0 to |roots|
        invariant View(tree) == v && Below(rank, bound, roots[..i])
        invariant killed == log + Kills(WalkAll(Solver(v), rank, bound, roots[..i]), sig)
      {
        SendSignalBottomUpRec(roots[i], sig);
        RootsStep(Solver(v), rank, bound, roots, i);
        KillsAppend(log, WalkAll(Solver(v), rank, bound, roots[..i]), Walk(Solver(v), rank, roots[i]), sig);
      }
      assert roots[..|roots|] == roots;
      KillsAre(Victims(v, rank, runsolverPID, roots), sig);
    }

    method ListProcessesRec(list: set<Pid>, pid: Pid) returns (more: set<Pid>)
      requires Tame(View(tree), rank)
      modifies `tree
      ensures View(tree) == old(View(tree))
      ensures more == list + Elements(Walk(Listed(View(tree)), rank, pid))
      decreases rank(pid)
    {
      hide View, Walk, WalkAll, Solver, Links, Visited, Elements;
      ghost var v := View(tree);
      ghost var g := Listed(v);
      VisitedEnds(g, rank, pid);
      more := list;
      var data := Lookup(pid);
      if data.None? || !data.value.valid {
        return;
      }
      more := more + {pid};
      for i := 0 to |data.value.children|
        invariant View(tree) == v
        invariant more == list + Visited(g, rank, pid, i)
      {
        VisitedStep(g, rank, pid, i);
        more := ListProcessesRec(more, data.value.children[i]);
      }
    }

    method ListProcesses(list: set<Pid>) returns (more: set<Pid>)
      requires TameTree(View(tree), roots, rank, runsolverPID)
      modifies `tree
      ensures View(tree) == old(View(tree))
      ensures more == list + ListedSet(View(tree), rank, runsolverPID, roots)
    {
      hide View, Walk, WalkAll, Solver, Listed, Links;
      ghost var v, bound := View(tree), rank(runsolverPID);
      more := list;
      NoRoots(Listed(v), rank, bound, roots);
      for i := 0 to |roots|
        invariant View(tree) == v && Below(rank, bound, roots[..i])
        invariant more == list + Elements(WalkAll(Listed(v), rank, bound, roots[..i]))
      {
        more := ListProcessesRec(more, roots[i]);
        RootsStep(Listed(v), rank, bound, roots, i);
      }
      assert roots[..|roots|] == roots;
    }

    /** Reads a process again and goes on to its children; false if the process is gone. */
    method UpdateProcessesDataRec(root: Pid, proc: Proc) returns (ok: bool)
      requires Updatable(View(tree), rank, proc)
      modifies `tree
      ensures View(tree) == Updated(old(View(tree)), Elements(Walk(Visits(old(View(tree)), proc), rank, root)), proc)
      ensures Refreshes(View(tree), old(View(tree)), Elements(Walk(Visits(old(View(tree)), proc), rank, root)), proc)
      ensures ok <==> root in old(View(tree)) && Alive(old(View(tree))[root], proc)
      decreases rank(root)
    {
      hide View, Walk, WalkAll, Links, Updated, Refreshes, Visited, Acyclic, Elements;
      ghost var v := View(tree);
      ghost var g := Visits(v, proc);
      VisitedEnds(g, rank, root);
      UpdatedIsRefreshed(v, Elements(Walk(g, rank, root)), proc);
      var data := Lookup(root);
      if data.None? {
        UpdatedNone(v, {}, proc);
        return false; // unknown
      }
      UpdatedOne(v, root, proc);
      var reading := proc(data.value.pid, data.value.tid);
      if reading.None? {
        // dead: its record goes, its children are left alone
        ViewOfErase(tree, root);
        tree := tree - {root};
        return false;
      }
      ViewOfUpdate(tree, root, data.value.Refreshed(reading.value));
      tree := tree[root := Some(data.value.Refreshed(reading.value))];
      for i := 0 to |data.value.children|
        invariant View(tree) == Updated(v, Visited(g, rank, root, i), proc)
      {
        ghost var done := Visited(g, rank, root, i);
        VisitedStep(g, rank, root, i);
        UpdatableAfter(v, done, rank, proc);
        UpdateStep(v, done, proc, rank, data.value.children[i]);
        var childOk := UpdateProcessesDataRec(data.value.children[i], proc);
      }
      ok := true;
    }

    /** Updates the known processes; if a root is gone, reads everything again from s. */
    method UpdateProcessesData(proc: Proc, s: Snapshot, ghost rank': Pid -> nat, ghost owner: Pid -> Pid)
      returns (reread: bool, ghost first: Records)
      requires Updatable(View(tree), rank, proc) && Below(rank, rank(runsolverPID), roots)
      requires Orderly(s, runsolverPID, rank', owner)
      modifies this
      ensures runsolverPID == old(runsolverPID) && killed == old(killed)
      ensures reread <==> exists r :: r in old(roots) && !(r in old(View(tree)) && Alive(old(View(tree))[r], proc))
      ensures reread ==> rank == rank' && FullyRead(first, s, owner) && Valid()
      ensures !reread ==> && roots == old(roots) && rank == old(rank) && up == old(up)
                          && treeHasAllProcesses == old(treeHasAllProcesses)
                          && View(tree) == Updated(old(View(tree)),
                               Elements(WalkAll(Visits(old(View(tree)), proc), old(rank),
                                                old(rank(runsolverPID)), old(roots))), proc)
    {
      hide View, Walk, WalkAll, Links, Updated, Visits, Acyclic, Elements, Orderly, Alive;
      ghost var v, bound := View(tree), rank(runsolverPID);
      ghost var g := Visits(v, proc);
      NoRoots(g, rank, bound, roots);
      UpdatedNone(v, {}, proc);
      first := map[];
      var allRootsOK := true;
      for i := 0 to |roots|
        invariant Below(rank, bound, roots[..i])
        invariant allRootsOK <==> forall r :: r in roots[..i] ==> r in v && Alive(v[r], proc)
        invariant allRootsOK ==> View(tree) == Updated(v, Elements(WalkAll(g, rank, bound, roots[..i])), proc)
        modifies `tree
      {
        RootsStep(g, rank, bound, roots, i);
        assert roots[..i + 1] == roots[..i] + [roots[i]];
        if allRootsOK {
          ghost var done := Elements(WalkAll(g, rank, bound, roots[..i]));
          UpdatableAfter(v, done, rank, proc);
          UpdateStep(v, done, proc, rank, roots[i]);
          UpdatedIsAlive(v, done, proc, roots[i]);
          allRootsOK := UpdateProcessesDataRec(roots[i], proc);
        }
      }
      assert roots[..|roots|] == roots;
      reread := !allRootsOK;
      if !allRootsOK {
        first := ReadProcesses(s, rank', owner);
      }
    }

    /** Copies the records that pt lists below pid; find() leaves no entry behind. */
    method CloneRec(pt: ProcessTree, pid: Pid)
      requires pt != this && Tame(View(pt.tree), pt.rank)
      modifies `tree
      ensures View(tree) == old(View(tree)) + Cloned(View(pt.tree), Elements(Walk(Listed(View(pt.tree)), pt.rank, pid)))
      decreases pt.rank(pid)
    {
      hide View, Walk, WalkAll, Links, Solver, Visited, Cloned, Elements;
      ghost var w, v := View(tree), View(pt.tree);
      ghost var g := Listed(v);
      VisitedEnds(g, pt.rank, pid);
      ClonesCompose(w, v, {}, {});
      NullIsNoRecord(pt.tree, pid);
      if pid !in pt.tree {
        return;
      }
      var data := pt.tree[pid];
      if data.None? || !data.value.valid {
        return;
      }
      ClonedOne(w, v, pid);
      ViewOfUpdate(tree, pid, data.value.Copied());
      tree := tree[pid := Some(data.value.Copied())];
      for i := 0 to |data.value.children|
        invariant View(tree) == w + Cloned(v, Visited(g, pt.rank, pid, i))
      {
        VisitedStep(g, pt.rank, pid, i);
        ClonesCompose(w, v, Visited(g, pt.rank, pid, i), Elements(Walk(g, pt.rank, data.value.children[i])));
        CloneRec(pt, data.value.children[i]);
      }
    }

    method Clone(pt: ProcessTree)
      requires pt != this && TameTree(View(pt.tree), pt.roots, pt.rank, pt.runsolverPID)
      modifies `tree, `treeHasAllProcesses
      ensures View(tree) == old(View(tree)) + ProcessUpdate.Copy(View(pt.tree), pt.roots, pt.rank, pt.runsolverPID)
      ensures !treeHasAllProcesses
    {
      hide View, Walk, WalkAll, Links, Solver, Listed, Cloned, Elements;
      treeHasAllProcesses := false; // the other processes of the system are not in the copy
      ghost var w, v, bound := View(tree), View(pt.tree), pt.rank(pt.runsolverPID);
      ghost var g := Listed(v);
      NoRoots(g, pt.rank, bound, pt.roots);
      ClonesCompose(w, v, {}, {});
      for i := 0 to |pt.roots|
        invariant !treeHasAllProcesses && Below(pt.rank, bound, pt.roots[..i])
        invariant View(tree) == w + Cloned(v, Elements(WalkAll(g, pt.rank, bound, pt.roots[..i])))
      {
        RootsStep(g, pt.rank, bound, pt.roots, i);
        ClonesCompose(w, v, Elements(WalkAll(g, pt.rank, bound, pt.roots[..i])),
                      Elements(Walk(g, pt.rank, pt.roots[i])));
        CloneRec(pt, pt.roots[i]);
      }
      assert pt.roots[..|pt.roots|] == pt.roots;
    }

    /** The copy has the records that pt lists, all invalid until updated. */
    constructor Copy(pt: ProcessTree)
      requires TameTree(View(pt.tree), pt.roots, pt.rank, pt.runsolverPID)
      ensures View(tree) == ProcessUpdate.Copy(View(pt.tree), pt.roots, pt.rank, pt.runsolverPID)
      ensures roots == pt.roots && runsolverPID == pt.runsolverPID && rank == pt.rank && up == pt.up && killed == []
      ensures !treeHasAllProcesses
    {
      hide View, Acyclic, Below, ProcessUpdate.Copy;
      tree := map[];
      roots, runsolverPID, treeHasAllProcesses := pt.roots, pt.runsolverPID, pt.treeHasAllProcesses;
      rank, up, killed := pt.rank, pt.up, [];
      new;
      NoRecords();
      NothingBefore(ProcessUpdate.Copy(View(pt.tree), pt.roots, pt.rank, pt.runsolverPID));
      Clone(pt);
    }

    /** Appends each valid process to the list of its parent, in ascending order of the keys. */
    method IdentifyChildren()
      requires NoNullParent(tree)
      modifies `tree
      ensures tree.Keys == old(tree.Keys)
      ensures Linked(View(tree), old(View(tree)), old(tree.Keys))
    {
      hide View, Linked;
      ghost var base, keys := View(tree), tree.Keys;
      var todo := tree.Keys;
      NothingLinked(base);
      ghost var seen: set<Pid> := {};
      while todo != {}
        invariant forall p :: p in seen || p in todo <==> p in keys
        invariant tree.Keys == keys
        invariant Linked(View(tree), base, seen)
        invariant forall p, q :: p in seen && q in todo ==> p.number < q.number
      {
        LeastExists(todo);
        var q :| q in todo && forall p :: p in todo ==> q.number <= p.number;
        LinkOne(View(tree), base, seen, q);
        LinkedInfo(View(tree), base, seen, q);
        NullIsNoRecord(tree, q);
        todo, seen := todo - {q}, seen + {q};
        var data := tree[q];
        if data.Some? && data.value.valid {
          var parent := data.value.info.ppid;
          LinkedInfo(View(tree), base, seen - {q}, parent);
          NullIsNoRecord(tree, parent);
          NullIsNoRecord(old(tree), parent);
          if parent != NO_PARENT && parent in tree {
            var father := tree[parent].value;
            ViewOfUpdate(tree, parent, father.(children := father.children + [q]));
            tree := tree[parent := Some(father.(children := father.children + [q]))];
          }
        }
      }
      assert seen == keys;
    }

    /** Adds the tasks of a valid process to the tree and to its children. */
    method ReadProcessTasks(pid: Pid, s: Snapshot)
      modifies `tree
      ensures forall t :: t in AllTasks(s, pid) ==> s.proc(pid, t).Some?
      ensures View(tree) == if pid in old(View(tree)) && old(View(tree))[pid].valid
                            then Attach(old(View(tree)), pid, AllTasks(s, pid), s) else old(View(tree))
    {
      hide View, Attach;
      ghost var w := View(tree);
      var data := Lookup(pid);
      TasksAreReadable(s, pid);
      if data.None? || !data.value.valid {
        return;
      }
      AttachNone(w, pid, s);
      for i := 0 to |s.tasks(pid)|
        invariant forall t :: t in TaskList(s, pid, i) ==> s.proc(pid, t).Some?
        invariant View(tree) == Attach(w, pid, TaskList(s, pid, i), s)
      {
        var tid := s.tasks(pid)[i];
        TaskListGrows(s, pid, i);
        if tid != pid && s.proc(pid, tid).Some? {
          AttachOne(w, pid, TaskList(s, pid, i), tid, s);
          ViewOfUpdate(tree, tid, FreshTask(s, pid, tid));
          tree := tree[tid := Some(FreshTask(s, pid, tid))];
          var father := Lookup(pid);
          ViewOfUpdate(tree, pid, father.value.(children := father.value.children + [tid]));
          tree := tree[pid := Some(father.value.(children := father.value.children + [tid]))];
        }
      }
    }

    /** Reads the tasks of a process and of all processes below it. */
    method ReadTasksRec(pid: Pid, s: Snapshot, ghost first: Records, ghost read: set<Pid>, ghost owner: Pid -> Pid)
      requires Pass(first, s, runsolverPID, rank, owner) && pid in first
      requires Acyclic(Listed(first), rank) && Tree(Listed(first), Parent(first, owner))
      requires View(tree) == WithTasks(first, read, s, owner)
      requires read !! Elements(Walk(Listed(first), rank, pid))
      modifies `tree
      ensures View(tree) == WithTasks(first, read + Elements(Walk(Listed(first), rank, pid)), s, owner)
      decreases rank(pid)
    {
      hide View, WithTasks, Walk, Elements, Pass, AllTasks, Attach, Tree, Acyclic, ReadBefore;
      ghost var top := runsolverPID;
      MoreTasks(first, read, s, top, rank, owner, pid);
      ReadBeforeEnds(first, read, rank, pid, AllTasks(s, pid));
      var data := Lookup(pid);
      if data.Some? && data.value.valid {
        ReadProcessTasks(pid, s);
        data := Lookup(pid); // the record has got its tasks
        for i := 0 to |data.value.children|
          invariant View(tree) == WithTasks(first, ReadBefore(first, read, rank, pid, i), s, owner)
        {
          ReadBeforeStep(first, read, s, top, rank, owner, pid, i);
          var childpid := data.value.children[i];
          var child := Lookup(childpid);
          if child.Some? && !child.value.IsTask() {
            ReadTasksRec(childpid, s, first, ReadBefore(first, read, rank, pid, i), owner);
          }
        }
      }
    }

    /** The outcome of a full read; `first` is the state before the tasks were read. */
    ghost predicate FullyRead(first: Records, s: Snapshot, owner: Pid -> Pid)
      reads this
    {
      && treeHasAllProcesses
      && Pass(first, s, runsolverPID, rank, owner) && up == Parent(first, owner)
      && roots == RootsOf(s, runsolverPID)
      && View(tree) == WithTasks(first, Elements(Descendants(first, s, runsolverPID, rank, owner)), s, owner)
    }

    /** The processes whose figures are summed up. */
    ghost function SummedUp(): set<Pid>
      requires Valid()
      reads this
    {
      TreeIsTame(View(tree), roots, rank, up, runsolverPID);
      SolverSet(View(tree), rank, runsolverPID, roots)
    }

    /** After a full read, each total is the sum of what /proc gives for the strict descendants of runsolver. */
    lemma FullReadSumsDescendants(first: Records, s: Snapshot, owner: Pid -> Pid)
      requires FullyRead(first, s, owner) && Valid()
      ensures SummedUp() == DescendantsOf(s, runsolverPID)
      ensures Totals(View(tree), SummedUp()) == Consumed(s.proc, DescendantsOf(s, runsolverPID))
    {
      hide View, WithTasks, Victims, Lineage, Pass, Totals, Consumed, ListedSet, Base;
      var read := Elements(Descendants(first, s, runsolverPID, rank, owner));
      forall x ensures x in SummedUp() <==> x in DescendantsOf(s, runsolverPID) {
        SweepIsDescendants(first, s, owner, x);
        ChainEndsInBase(s, runsolverPID, x);
      }
      assert SummedUp() == DescendantsOf(s, runsolverPID);
      forall x | x in SummedUp() ensures s.proc(x, NO_TASK) == Some(View(tree)[x].info) {
        RecordsAreRead(first, read, s, runsolverPID, rank, owner, x);
      }
      TotalsAreReadings(View(tree), s.proc, SummedUp());
    }

    /** After a full read, what is summed, signalled and counted is exactly the strict descendants of runsolver. */
    lemma SweepIsDescendants(first: Records, s: Snapshot, owner: Pid -> Pid, x: Pid)
      requires FullyRead(first, s, owner) && Valid()
      ensures x in Victims(View(tree), rank, runsolverPID, roots)
          <==> exists chain :: Lineage(Base(s), runsolverPID, chain, x)
      ensures x in SolverSet(View(tree), rank, runsolverPID, roots)
          <==> exists chain :: Lineage(Base(s), runsolverPID, chain, x)
    {
      hide View, WithTasks, Victims, Lineage, Pass;
      var read := Elements(Descendants(first, s, runsolverPID, rank, owner));
      VictimsAreDescendants(first, read, s, runsolverPID, rank, owner, x);
      VictimsAreListed(View(tree), roots, rank, up, runsolverPID, x);
    }

    /** Reads all of /proc, links the processes and reads the tasks of those below runsolver. */
    method ReadProcesses(s: Snapshot, ghost rank': Pid -> nat, ghost owner: Pid -> Pid) returns (ghost first: Records)
      requires Orderly(s, runsolverPID, rank', owner)
      modifies this
      ensures runsolverPID == old(runsolverPID) && killed == old(killed) && rank == rank'
      ensures FullyRead(first, s, owner) && Valid()
    {
      hide View, WithTasks, Walk, WalkAll, Elements, Linked, Tree, Acyclic, SolverTree, Orderly;
      rank := rank';
      ReadListing(s);
      KeysOfView(tree);
      treeHasAllProcesses := true;
      IdentifyChildren();
      first := View(tree);
      up := Parent(first, owner);
      ReadAllTasks(s, first, owner);
      FullReadIsTree(first, Elements(Descendants(first, s, runsolverPID, rank, owner)), s, runsolverPID, rank, owner);
    }

    /** Reads every process of the listing; the children of runsolver are the roots. */
    method ReadListing(s: Snapshot)
      modifies `tree, `roots
      ensures tree.Keys <= Elements(s.listing)
      ensures forall p :: p in tree ==> tree[p].Some? && tree[p].value.valid && tree[p].value.children == []
      ensures View(tree) == Base(s) && roots == RootsOf(s, runsolverPID)
    {
      hide View, Found;
      tree, roots := map[], [];
      NoRecords();
      FoundNone(s);
      for i := 0 to |s.listing|
        invariant tree.Keys <= Elements(s.listing)
        invariant forall p :: p in tree ==> tree[p].Some? && tree[p].value.valid && tree[p].value.children == []
        invariant View(tree) == Found(s, i) && roots == Roots(s, runsolverPID, i)
      {
        var pid := s.listing[i];
        FoundStep(s, i);
        RootsGrow(s, runsolverPID, i);
        var reading := s.proc(pid, NO_TASK);
        if reading.Some? {
          ViewOfUpdate(tree, pid, Fresh(s, pid));
          tree := tree[pid := Some(Fresh(s, pid))];
          if reading.value.ppid == runsolverPID {
            roots := roots + [pid];
          }
        }
      }
    }

    method ReadAllTasks(s: Snapshot, ghost first: Records, ghost owner: Pid -> Pid)
      requires Pass(first, s, runsolverPID, rank, owner) && View(tree) == first && roots == RootsOf(s, runsolverPID)
      modifies `tree
      ensures View(tree) == WithTasks(first, Elements(Descendants(first, s, runsolverPID, rank, owner)), s, owner)
    {
      hide View, WithTasks, Walk, WalkAll, Elements, Pass;
      ghost var g, top, bound := Listed(first), runsolverPID, rank(runsolverPID);
      FirstPassIsTree(first, s, top, rank, owner);
      RootsAre(first, s, top, rank, owner);
      WithNone(first, s, owner);
      NoRoots(g, rank, bound, roots);
      for i := 0 to |roots|
        invariant Below(rank, bound, roots[..i])
        invariant View(tree) == WithTasks(first, Elements(WalkAll(g, rank, bound, roots[..i])), s, owner)
      {
        RootsStep(g, rank, bound, roots, i);
        RootIsApart(g, rank, Parent(first, owner), top, roots, i);
        ReadTasksRec(roots[i], s, first, Elements(WalkAll(g, rank, bound, roots[..i])), owner);
      }
      assert roots[..|roots|] == roots;
    }
  }

  ghost predicate RootsAreAlive(v: Records, roots: seq<Pid>, proc: Proc) {
    forall r :: r in roots ==> r in v && v[r].valid && Alive(v[r], proc)
  }

  /** What one sample does to the tree: it copies the last one and updates the copy. */
  method CopyAndUpdate(last: ProcessTree, proc: Proc, s: Snapshot, ghost rank': Pid -> nat, ghost owner: Pid -> Pid)
    returns (next: ProcessTree, reread: bool, ghost first: Records)
    requires last.Valid() && Orderly(s, last.runsolverPID, rank', owner)
    ensures fresh(next) && next.Valid() && next.runsolverPID == last.runsolverPID
    ensures if RootsAreAlive(View(last.tree), last.roots, proc)
            then && !reread && next.roots == last.roots && next.rank == last.rank && next.up == last.up
                 && DeadCutOff(View(next.tree), View(last.tree),
                               last.roots, last.rank, last.up, last.runsolverPID, proc)
                 && Totals(View(next.tree), next.SummedUp()) == Consumed(proc, next.SummedUp())
            else reread && next.FullyRead(first, s, owner) && next.rank == rank'
  {
    hide View, Walk, WalkAll, Links, Listed, ListedSet, Solver, Totals, Consumed;
    hide Visits, Updated, Copy, Orderly, Tree, Alive, Siblings;
    ghost var v, top := View(last.tree), last.runsolverPID;
    TreeIsTame(v, last.roots, last.rank, last.up, top);
    next := new ProcessTree.Copy(last);
    CopyIsAcyclic(v, last.roots, last.rank, top, proc);
    RootsOfCopy(v, last.roots, last.rank, top, proc);
    UpdatedCopyIsCutOff(v, last.roots, last.rank, last.up, top, proc);
    UpdatedCopyCarriesReadings(v, last.roots, last.rank, last.up, top, proc);
    reread, first := next.UpdateProcessesData(proc, s, rank', owner);
  }

  /** All totals of a tree. */
  method SumUp(t: ProcessTree) returns (figures: Figures)
    requires t.Valid()
    modifies t`tree
    ensures View(t.tree) == old(View(t.tree)) && t.Valid()
    ensures figures == Totals(View(t.tree), t.SummedUp())
  {
    hide View, SolverTree, SolverSet, Victims;
    TreeIsTame(View(t.tree), t.roots, t.rank, t.up, t.runsolverPID);
    var user, system := t.CurrentCPUTime();
    var vsize := t.CurrentVSize();
    var memory := t.CurrentMemory();
    figures := Figures(user, system, vsize, memory);
  }

  /** A whole sample, with or without a look for new processes. The figures are what /proc gives: for the strict
      descendants of runsolver after a full read, and otherwise for the processes known before that are neither dead
      nor below a dead one. */
  method TakeSample(last: ProcessTree, updateChildrenList: bool, proc: Proc, s: Snapshot,
      ghost rank': Pid -> nat, ghost owner: Pid -> Pid)
    returns (next: ProcessTree, figures: Figures, ghost first: Records)
    requires last.Valid() && Orderly(s, last.runsolverPID, rank', owner)
    ensures fresh(next) && next.Valid() && next.runsolverPID == last.runsolverPID
    ensures if !updateChildrenList && RootsAreAlive(View(last.tree), last.roots, proc)
            then && next.roots == last.roots && next.rank == last.rank && next.up == last.up
                 && DeadCutOff(View(next.tree), View(last.tree),
                               last.roots, last.rank, last.up, last.runsolverPID, proc)
                 && figures == Consumed(proc, next.SummedUp())
            else && next.FullyRead(first, s, owner) && next.rank == rank'
                 && figures == Consumed(s.proc, DescendantsOf(s, last.runsolverPID))
  {
    hide View, SolverTree, SolverSet, Orderly, DeadCutOff, RootsAreAlive, Totals, Consumed, DescendantsOf, Pass,
      WithTasks;
    var reread := updateChildrenList;
    if updateChildrenList {
      TreeIsTame(View(last.tree), last.roots, last.rank, last.up, last.runsolverPID);
      next := new ProcessTree.Copy(last);
      first := next.ReadProcesses(s, rank', owner);
    } else {
      next, reread, first := CopyAndUpdate(last, proc, s, rank', owner);
    }
    if reread { next.FullReadSumsDescendants(first, s, owner); }
    figures := SumUp(next);
  }

  /** A root is in the copy if it was valid. */
  lemma RootsOfCopy(v: Records, roots: seq<Pid>, rank: Pid -> nat, top: Pid, proc: Proc)
    requires Acyclic(Links(v), rank) && Below(rank, rank(top), roots)
    ensures var copy := Copy(v, roots, rank, top);
            forall r :: r in roots
                        ==> (r in copy && Alive(copy[r], proc) <==> r in v && v[r].valid && Alive(v[r], proc))
  {
    GraphsAreAcyclic(v, rank);
    ListedSetIsValid(v, roots, rank, top);
    forall r | r in roots && r in v && v[r].valid ensures r in ListedSet(v, rank, top, roots) {
      InWalkAll(Listed(v), rank, rank(top), roots, r);
      assert r in Walk(Listed(v), rank, r);
    }
  }

  /** The first tree and the first full sample of the children of runsolver, whose pid is given. */
  method FirstSample(pid: Pid, s: Snapshot, ghost rank: Pid -> nat, ghost owner: Pid -> Pid)
    returns (procTree: ProcessTree, ended: bool, ghost first: Records)
    requires Orderly(s, pid, rank, owner)
    ensures fresh(procTree) && procTree.Valid() && procTree.runsolverPID == pid && procTree.FullyRead(first, s, owner)
    ensures ended <==> forall p :: p in Base(s) ==> Base(s)[p].info.ppid != pid
  {
    hide Orderly, Pass, WithTasks, Roots, Found;
    var initial := new ProcessTree();
    initial.SetRunsolverPID(pid);
    TreeIsTame(View(initial.tree), initial.roots, initial.rank, initial.up, pid);
    procTree := new ProcessTree.Copy(initial);
    first := procTree.ReadProcesses(s, rank, owner);
    forall p ensures p in RootsOf(s, pid) <==> p in Base(s) && Base(s)[p].info.ppid == pid {
      RootsMembers(s, pid, |s.listing|, p);
    }
    ended := procTree.SolverEnded();
    assert procTree.roots != [] ==> procTree.roots[0] in RootsOf(s, pid);
  }

  lemma TasksAreReadable(s: Snapshot, p: Pid)
    ensures forall t :: t in AllTasks(s, p) ==> s.proc(p, t).Some?
  {
    forall t | t in AllTasks(s, p) ensures s.proc(p, t).Some? {
      TaskListMembers(s, p, |s.tasks(p)|, t);
    }
  }

  /** The processes whose tasks are read before child or task number i of pid is considered. */
  ghost function ReadBefore(first: Records, read: set<Pid>, rank: Pid -> nat, pid: Pid, i: nat): set<Pid>
    requires Acyclic(Listed(first), rank) && pid in first && first[pid].valid
  {
    var n := |first[pid].children|;
    read + Visited(Listed(first), rank, pid, if i < n then i else n)
  }

  lemma ReadBeforeEnds(first: Records, read: set<Pid>, rank: Pid -> nat, pid: Pid, tasks: seq<Pid>)
    requires Acyclic(Listed(first), rank) && pid in first && first[pid].valid
    ensures ReadBefore(first, read, rank, pid, 0) == read + {pid}
    ensures ReadBefore(first, read, rank, pid, |first[pid].children + tasks|)
            == read + Elements(Walk(Listed(first), rank, pid))
  {
    hide Walk, Elements, Visited;
    VisitedEnds(Listed(first), rank, pid);
  }

  lemma ReadBeforeStep(first: Records, read: set<Pid>, s: Snapshot, top: Pid, rank: Pid -> nat, owner: Pid -> Pid,
      pid: Pid, i: nat)
    requires Pass(first, s, top, rank, owner) && pid in first && first[pid].valid
    requires Acyclic(Listed(first), rank) && Tree(Listed(first), Parent(first, owner))
    requires read !! Elements(Walk(Listed(first), rank, pid))
    requires i < |first[pid].children + AllTasks(s, pid)|
    ensures var c := (first[pid].children + AllTasks(s, pid))[i];
            var w := WithTasks(first, ReadBefore(first, read, rank, pid, i), s, owner);
            if c in w && !w[c].IsTask()
            then && c in first && rank(c) < rank(pid)
                 && ReadBefore(first, read, rank, pid, i) !! Elements(Walk(Listed(first), rank, c))
                 && ReadBefore(first, read, rank, pid, i + 1)
                    == ReadBefore(first, read, rank, pid, i) + Elements(Walk(Listed(first), rank, c))
            else ReadBefore(first, read, rank, pid, i + 1) == ReadBefore(first, read, rank, pid, i)
  {
    hide Walk, Elements, Visited, Pass, WithTasks, AllTasks, Tree, Acyclic;
    var g := Listed(first);
    StartIsVisited(g, rank, pid);
    ChildAfterTasks(first, ReadBefore(first, read, rank, pid, i), s, top, rank, owner, pid, i);
    if i < |first[pid].children| {
      VisitedStep(g, rank, pid, i);
      KidIsApart(g, rank, Parent(first, owner), pid, i);
    }
  }

  lemma StartIsVisited(g: Graph, rank: Pid -> nat, pid: Pid)
    requires Acyclic(g, rank) && pid in g
    ensures forall i :: 0 <= i <= |g[pid]| ==> pid in Visited(g, rank, pid, i)
    ensures pid in Elements(Walk(g, rank, pid))
  {}

  lemma MoreTasks(v: Records, read: set<Pid>, s: Snapshot, top: Pid, rank: Pid -> nat, owner: Pid -> Pid, p: Pid)
    requires Pass(v, s, top, rank, owner) && p in v && Acyclic(Listed(v), rank)
    requires read !! Elements(Walk(Listed(v), rank, p))
    ensures p in WithTasks(v, read, s, owner) && WithTasks(v, read, s, owner)[p] == v[p] && v[p].valid
    ensures forall t :: t in AllTasks(s, p) ==> s.proc(p, t).Some?
    ensures Attach(WithTasks(v, read, s, owner), p, AllTasks(s, p), s) == WithTasks(v, read + {p}, s, owner)
    ensures p in WithTasks(v, read + {p}, s, owner)
    ensures WithTasks(v, read + {p}, s, owner)[p].children == v[p].children + AllTasks(s, p)
  {
    hide WithTasks, Attach, AllTasks, Orderly, FirstPass, Walk, Elements;
    FirstPassRecords(v, s, top, rank, owner);
    StartIsVisited(Listed(v), rank, p);
    WithOneMore(v, read, s, top, rank, owner, p);
    RecordAfterTasks(v, read + {p}, s, top, rank, owner, p);
  }

  lemma KeysOfView(tree: ProcMap)
    requires forall p :: p in tree ==> tree[p].Some?
    ensures View(tree).Keys == tree.Keys
    ensures forall p :: p in tree ==> View(tree)[p] == tree[p].value
  {}

  lemma NoRecords()
    ensures View(map[]) == map[]
  {}

  lemma NothingBefore(v: Records)
    ensures map[] + v == v
  {}

  lemma NullIsNoRecord(tree: ProcMap, p: Pid)
    ensures p in View(tree) <==> p in tree && tree[p].Some?
    ensures p in View(tree) ==> View(tree)[p] == tree[p].value
  {}

  lemma OneKill(pid: Pid, sig: int)
    ensures Kills([pid], sig) == [Kill(pid, sig)]
  {}

  lemma NoRoots(g: Graph, rank: Pid -> nat, bound: nat, roots: seq<Pid>)
    requires Acyclic(g, rank)
    ensures Below(rank, bound, roots[..0]) && WalkAll(g, rank, bound, roots[..0]) == []
    ensures Elements(WalkAll(g, rank, bound, roots[..0])) == {}
  {}
}
