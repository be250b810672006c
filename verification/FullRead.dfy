/** The tree that a full read of /proc leaves: the inverse of ppid, below runsolver. */
module FullRead {
  import opened Forest
  import opened ProcessData
  import opened Wrappers
  import opened ProcessSnapshot
  import opened TreeWalks

  /** The walk from a child meets nothing that was visited before it. */
  lemma KidIsApart(g: Graph, rank: Pid -> nat, up: Pid -> Pid, pid: Pid, i: nat)
    requires Acyclic(g, rank) && Tree(g, up) && pid in g && i < |g[pid]|
    ensures Visited(g, rank, pid, i) !! Elements(Walk(g, rank, g[pid][i]))
    ensures Elements(Walk(g, rank, g[pid][i])) <= Elements(Walk(g, rank, pid))
  {
    var c := g[pid][i];
    assert c in g[pid];
    InWalkAll(g, rank, rank(pid), g[pid], c);
    forall x | x in Walk(g, rank, c) ensures x !in Visited(g, rank, pid, i) && x in Walk(g, rank, pid) {
      WalkIsBelow(g, rank, c, x);
      InWalkAll(g, rank, rank(pid), g[pid][..i], x);
      InWalkAll(g, rank, rank(pid), g[pid], x);
      if x in GraphKids(g, rank, pid, i) {
        var d :| d in g[pid][..i] && x in Walk(g, rank, d);
        assert d in g[pid];
        SiblingsAreDisjoint(g, rank, up, c, d, x);
      }
    }
  }

  /** The walk from a root meets nothing that the walks from the roots before it visited. */
  lemma RootIsApart(g: Graph, rank: Pid -> nat, up: Pid -> Pid, top: Pid, roots: seq<Pid>, i: nat)
    requires Acyclic(g, rank) && Tree(g, up) && Siblings(roots, rank, up, top) && i < |roots|
    requires Below(rank, rank(top), roots[..i])
    ensures Elements(WalkAll(g, rank, rank(top), roots[..i])) !! Elements(Walk(g, rank, roots[i]))
  {
    forall x | x in Walk(g, rank, roots[i]) ensures x !in WalkAll(g, rank, rank(top), roots[..i]) {
      InWalkAll(g, rank, rank(top), roots[..i], x);
      if x in WalkAll(g, rank, rank(top), roots[..i]) {
        var d :| d in roots[..i] && x in Walk(g, rank, d);
        assert d in roots;
        SiblingsAreDisjoint(g, rank, up, roots[i], d, x);
      }
    }
  }

  /** What readProcesses is given and has done up to the tasks. */
  ghost predicate Pass(v: Records, s: Snapshot, top: Pid, rank: Pid -> nat, owner: Pid -> Pid) {
    FirstPass(v, s) && Orderly(s, top, rank, owner)
  }

  /** The parent of a process or task. */
  ghost function Parent(v: Records, owner: Pid -> Pid): Pid -> Pid {
    p => if p in v then v[p].info.ppid else owner(p)
  }

  function RootsOf(s: Snapshot, top: Pid): seq<Pid> {
    Roots(s, top, |s.listing|)
  }

  lemma ChildrenOf(v: Records, s: Snapshot, top: Pid, rank: Pid -> nat, owner: Pid -> Pid, p: Pid)
    requires Pass(v, s, top, rank, owner) && p in v
    ensures NoDuplicates(v[p].children)
    ensures forall c :: c in v[p].children <==> c in v && v[c].info.ppid == p
    ensures forall c :: c in v[p].children ==> rank(c) < rank(p)
    ensures v[p].pid == p && !v[p].IsTask() && v[p].valid
  {
    assert IsChildList(Base(s), Base(s).Keys, p, v[p].children);
    SortedHasNoDuplicates(v[p].children);
    forall c | c in v[p].children ensures rank(c) < rank(p) {
      assert c in Base(s) && Base(s)[c].info.ppid in Base(s);
    }
  }

  lemma RootsAre(v: Records, s: Snapshot, top: Pid, rank: Pid -> nat, owner: Pid -> Pid)
    requires Pass(v, s, top, rank, owner)
    ensures Siblings(RootsOf(s, top), rank, Parent(v, owner), top)
    ensures forall r :: r in RootsOf(s, top) <==> r in v && v[r].info.ppid == top
  {
    RootsNoDuplicates(s, top, |s.listing|);
    forall r ensures r in RootsOf(s, top) <==> r in v && v[r].info.ppid == top {
      RootsMembers(s, top, |s.listing|, r);
    }
    forall r | r in RootsOf(s, top) ensures rank(r) < rank(top) {
      assert r in Base(s) && Base(s)[r].info.ppid == top;
    }
  }

  /** The record x carries what the snapshot gives for a process, or for a task of one. */
  ghost predicate IsRead(d: ProcessData, x: Pid, s: Snapshot, owner: Pid -> Pid) {
    && d.valid && s.proc(d.pid, d.tid) == Some(d.info)
    && if d.IsTask() then d.tid == x && d.pid == owner(x) && x in s.tasks(d.pid) else d.pid == x && x in s.listing
  }

  lemma FirstPassIsRead(v: Records, s: Snapshot, owner: Pid -> Pid, p: Pid)
    requires FirstPass(v, s) && p in v
    ensures IsRead(v[p], p, s, owner) && !v[p].IsTask()
  {
    hide Base;
    BaseHolds(s, p);
  }

  /** Every record of a full read carries what /proc gave. */
  lemma RecordsAreRead(v: Records, read: set<Pid>, s: Snapshot, top: Pid, rank: Pid -> nat, owner: Pid -> Pid, x: Pid)
    requires Pass(v, s, top, rank, owner)
    ensures var w := WithTasks(v, read, s, owner); x in w ==> IsRead(w[x], x, s, owner)
  {
    hide WithTasks, TaskList, Base, Orderly, FirstPass;
    WithTasksAt(v, read, s, owner, x);
    if x in v { FirstPassIsRead(v, s, owner, x); }
    if x in TaskSet(v, read, s) {
      var p :| p in read && p in v && x in AllTasks(s, p);
      InListing(v, s, p);
      TasksOf(s, top, rank, owner, p);
      TaskListMembers(s, p, |s.tasks(p)|, x);
      assert s.tasks(p)[..|s.tasks(p)|] == s.tasks(p);
    }
  }

  /** Before the tasks are read, the child lists form a tree. */
  lemma FirstPassIsTree(v: Records, s: Snapshot, top: Pid, rank: Pid -> nat, owner: Pid -> Pid)
    requires Pass(v, s, top, rank, owner)
    ensures SolverTree(v, RootsOf(s, top), rank, Parent(v, owner), top)
    ensures Acyclic(Listed(v), rank) && Tree(Listed(v), Parent(v, owner)) && Listed(v) == Links(v)
  {
    hide Pass;
    RootsAre(v, s, top, rank, owner);
    forall p | p in v
      ensures NoDuplicates(v[p].children)
      ensures forall c :: c in v[p].children <==> c in v && v[c].info.ppid == p
      ensures forall c :: c in v[p].children ==> rank(c) < rank(p)
      ensures !v[p].IsTask() && v[p].valid && v[p].pid == p
    {
      ChildrenOf(v, s, top, rank, owner, p);
    }
    assert Listed(v).Keys == Links(v).Keys;
  }

  lemma {:induction false} ProcessesAppend(v: Records, a: seq<Pid>, b: seq<Pid>)
    ensures Processes(v, a + b) == Processes(v, a) + Processes(v, b)
  {
    if b == [] {
      assert a + b == a;
    } else {
      var last := |b| - 1;
      ProcessesAppend(v, a, b[..last]);
      assert (a + b)[..|a + b| - 1] == a + b[..last];
    }
  }

  lemma {:induction false} AllProcesses(v: Records, ps: seq<Pid>)
    requires forall p :: p in ps ==> p in v && !v[p].IsTask()
    ensures Processes(v, ps) == ps
  {
    if ps != [] {
      assert ps[|ps| - 1] in ps;
      AllProcesses(v, ps[..|ps| - 1]);
    }
  }

  lemma {:induction false} NoProcesses(v: Records, ps: seq<Pid>)
    requires forall p :: p in ps ==> p in v ==> v[p].IsTask()
    ensures Processes(v, ps) == []
  {
    if ps != [] {
      assert ps[|ps| - 1] in ps;
      NoProcesses(v, ps[..|ps| - 1]);
    }
  }

  /** One record after the tasks have been read: a process with its children and perhaps its tasks, or a task. */
  lemma RecordAfterTasks(v: Records, read: set<Pid>, s: Snapshot, top: Pid, rank: Pid -> nat, owner: Pid -> Pid, x: Pid)
    requires Pass(v, s, top, rank, owner)
    ensures var w := WithTasks(v, read, s, owner);
            && (x in v ==> && x in w
                           && w[x] == if x in read then v[x].(children := v[x].children + AllTasks(s, x)) else v[x])
            && (x in w && x !in v ==> && w[x].IsTask() && w[x].children == [] && w[x].valid
                                      && owner(x) in v && owner(x) in read && x in AllTasks(s, owner(x)))
            && (owner(x) in v && owner(x) in read && x in AllTasks(s, owner(x)) ==> x in w && x !in v && w[x].IsTask())
  {
    hide WithTasks;
    WithTasksAt(v, read, s, owner, x);
    if x in v { NotATask(v, read, s, top, rank, owner, x); }
    if x in TaskSet(v, read, s) {
      var p :| p in read && p in v && x in AllTasks(s, p);
      InListing(v, s, p);
      TasksOf(s, top, rank, owner, p);
    }
    if owner(x) in v && owner(x) in read && x in AllTasks(s, owner(x)) {
      InListing(v, s, owner(x));
      TasksOf(s, top, rank, owner, owner(x));
      if x in v { InListing(v, s, x); }
    }
  }

  /** What the loop over the children of a process sees, its tasks already attached. */
  lemma ChildAfterTasks(v: Records, read: set<Pid>, s: Snapshot, top: Pid, rank: Pid -> nat, owner: Pid -> Pid,
      p: Pid, i: nat)
    requires Pass(v, s, top, rank, owner) && p in v && p in read
    requires i < |v[p].children + AllTasks(s, p)|
    ensures var w := WithTasks(v, read, s, owner);
            var c := (v[p].children + AllTasks(s, p))[i];
            && (i < |v[p].children| ==> c == v[p].children[i] && c in v && c in w && !w[c].IsTask())
            && (i >= |v[p].children| && c in w ==> w[c].IsTask())
  {
    hide WithTasks, AllTasks;
    var c := (v[p].children + AllTasks(s, p))[i];
    RecordAfterTasks(v, read, s, top, rank, owner, c);
    if i < |v[p].children| {
      assert c in v[p].children;
      ChildrenOf(v, s, top, rank, owner, p);
      ChildrenOf(v, s, top, rank, owner, c);
    } else {
      assert c == AllTasks(s, p)[i - |v[p].children|];
      assert c in AllTasks(s, p);
      InListing(v, s, p);
      TasksOf(s, top, rank, owner, p);
    }
  }

  /** The child list of a process, without the tasks, is exactly the inverse of ppid on the snapshot, in ascending
      order. */
  lemma ChildListInvertsPpid(v: Records, read: set<Pid>, s: Snapshot, top: Pid, rank: Pid -> nat,
      owner: Pid -> Pid, p: Pid)
    requires Pass(v, s, top, rank, owner) && p in v
    ensures var w := WithTasks(v, read, s, owner);
            && p in w && Processes(w, w[p].children) == v[p].children
            && IsChildList(Base(s), Base(s).Keys, p, Processes(w, w[p].children))
  {
    hide WithTasks;
    var w := WithTasks(v, read, s, owner);
    RecordAfterTasks(v, read, s, top, rank, owner, p);
    ChildrenOf(v, s, top, rank, owner, p);
    forall c | c in v[p].children ensures c in w && !w[c].IsTask() {
      RecordAfterTasks(v, read, s, top, rank, owner, c);
      ChildrenOf(v, s, top, rank, owner, c);
    }
    AllProcesses(w, v[p].children);
    InListing(v, s, p);
    TasksOf(s, top, rank, owner, p);
    if p in read {
      forall t | t in AllTasks(s, p) ensures t in w ==> w[t].IsTask() {
        RecordAfterTasks(v, read, s, top, rank, owner, t);
      }
      NoProcesses(w, AllTasks(s, p));
      ProcessesAppend(w, v[p].children, AllTasks(s, p));
    }
    assert IsChildList(Base(s), Base(s).Keys, p, v[p].children);
  }

  /** The same for all processes of the snapshot at once. */
  lemma ChildListsInvertPpid(v: Records, read: set<Pid>, s: Snapshot, top: Pid, rank: Pid -> nat, owner: Pid -> Pid)
    requires Pass(v, s, top, rank, owner)
    ensures forall p :: p in Base(s) <==> p in v
    ensures var w := WithTasks(v, read, s, owner);
            forall p :: p in v ==> p in w && IsChildList(Base(s), Base(s).Keys, p, Processes(w, w[p].children))
  {
    hide WithTasks, IsChildList, Pass;
    FirstPassRecords(v, s, top, rank, owner);
    var w := WithTasks(v, read, s, owner);
    forall p | p in v
      ensures p in w && IsChildList(Base(s), Base(s).Keys, p, Processes(w, w[p].children))
    {
      ChildListInvertsPpid(v, read, s, top, rank, owner, p);
    }
  }

  /** A task is listed by the process that runs it, and only there. */
  lemma LinksAfterTasks(v: Records, read: set<Pid>, s: Snapshot, top: Pid, rank: Pid -> nat, owner: Pid -> Pid, p: Pid)
    requires Pass(v, s, top, rank, owner)
    ensures var w := WithTasks(v, read, s, owner);
            p in w ==> && NoDuplicates(w[p].children)
                       && (forall c :: c in w[p].children ==> rank(c) < rank(p) && Parent(v, owner)(c) == p)
  {
    hide WithTasks;
    RecordAfterTasks(v, read, s, top, rank, owner, p);
    if p in v {
      ChildrenOf(v, s, top, rank, owner, p);
      InListing(v, s, p);
      TasksOf(s, top, rank, owner, p);
      forall t | t in AllTasks(s, p) ensures t !in v {
        if t in v { InListing(v, s, t); }
      }
      AppendDisjoint(v[p].children, AllTasks(s, p));
    }
  }

  /** After a full read, the records form a tree below runsolver. */
  lemma FullReadIsTree(v: Records, read: set<Pid>, s: Snapshot, top: Pid, rank: Pid -> nat, owner: Pid -> Pid)
    requires Pass(v, s, top, rank, owner)
    ensures SolverTree(WithTasks(v, read, s, owner), RootsOf(s, top), rank, Parent(v, owner), top)
  {
    hide WithTasks, Pass;
    var w := WithTasks(v, read, s, owner);
    RootsAre(v, s, top, rank, owner);
    forall p | p in w
      ensures NoDuplicates(w[p].children)
      ensures forall c :: c in w[p].children ==> rank(c) < rank(p) && Parent(v, owner)(c) == p
      ensures w[p].IsTask() ==> w[p].children == []
      ensures p in v ==> !w[p].IsTask()
      ensures IsFiledUnder(w[p], p)
    {
      RecordsAreRead(v, read, s, top, rank, owner, p);
      LinksAfterTasks(v, read, s, top, rank, owner, p);
      RecordAfterTasks(v, read, s, top, rank, owner, p);
      if p in v { ChildrenOf(v, s, top, rank, owner, p); }
    }
  }

  /** The processes below the roots, as they were before the tasks were read. */
  ghost function Descendants(v: Records, s: Snapshot, top: Pid, rank: Pid -> nat, owner: Pid -> Pid): seq<Pid>
    requires Pass(v, s, top, rank, owner)
  {
    FirstPassIsTree(v, s, top, rank, owner);
    WalkAll(Listed(v), rank, rank(top), RootsOf(s, top))
  }

  /** The processes summed and signalled after a full read. */
  ghost function Swept(v: Records, read: set<Pid>, s: Snapshot, top: Pid, rank: Pid -> nat, owner: Pid -> Pid): seq<Pid>
    requires Pass(v, s, top, rank, owner)
  {
    FullReadIsTree(v, read, s, top, rank, owner);
    Victims(WithTasks(v, read, s, owner), rank, top, RootsOf(s, top))
  }

  lemma SolverAfterTasks(v: Records, read: set<Pid>, s: Snapshot, top: Pid, rank: Pid -> nat, owner: Pid -> Pid)
    requires Pass(v, s, top, rank, owner)
    ensures var g := Solver(WithTasks(v, read, s, owner));
            && (forall p :: p in v ==> p in g && g[p] == v[p].children && forall c :: c in g[p] ==> c in v)
            && Subgraph(Listed(v), g)
  {
    hide WithTasks, Pass;
    forall p | p in v
      ensures p in Solver(WithTasks(v, read, s, owner)) && Solver(WithTasks(v, read, s, owner))[p] == v[p].children
      ensures forall c :: c in v[p].children ==> c in v
    {
      ChildListInvertsPpid(v, read, s, top, rank, owner, p);
      RecordAfterTasks(v, read, s, top, rank, owner, p);
      ChildrenOf(v, s, top, rank, owner, p);
    }
  }

  /** Tasks do not change which processes are summed and signalled. */
  lemma VictimsIgnoreTasks(v: Records, read: set<Pid>, s: Snapshot, top: Pid, rank: Pid -> nat, owner: Pid -> Pid)
    requires Pass(v, s, top, rank, owner)
    ensures Swept(v, read, s, top, rank, owner) == Descendants(v, s, top, rank, owner)
  {
    hide WithTasks, Pass, Walk, WalkAll, Solver, Links;
    var g, roots := Solver(WithTasks(v, read, s, owner)), RootsOf(s, top);
    FirstPassIsTree(v, s, top, rank, owner);
    FullReadIsTree(v, read, s, top, rank, owner);
    GraphsAreAcyclic(WithTasks(v, read, s, owner), rank);
    RootsAre(v, s, top, rank, owner);
    SolverAfterTasks(v, read, s, top, rank, owner);
    forall p | p in v ensures v[p].valid {
      ChildrenOf(v, s, top, rank, owner, p);
    }
    forall x | x in WalkAll(g, rank, rank(top), roots) ensures x in Listed(v) {
      InWalkAll(g, rank, rank(top), roots, x);
      var r :| r in roots && x in Walk(g, rank, r);
      WalkStaysIn(g, rank, v.Keys, r, x);
    }
    SameWalkAll(Listed(v), g, rank, rank(top), roots);
  }

  /** A chain of processes of the snapshot from a child of runsolver down to x, each the parent of the next. */
  ghost predicate Lineage(base: Records, top: Pid, chain: seq<Pid>, x: Pid) {
    && chain != []
    && (forall i :: 0 <= i < |chain| ==> chain[i] in base)
    && base[chain[0]].info.ppid == top
    && (forall i :: 0 < i < |chain| ==> base[chain[i]].info.ppid == chain[i - 1])
    && chain[|chain| - 1] == x
  }

  /** The strict descendants of runsolver in a snapshot. */
  ghost function DescendantsOf(s: Snapshot, top: Pid): set<Pid> {
    set x | x in Base(s) && exists chain :: Lineage(Base(s), top, chain, x)
  }

  lemma ChainEndsInBase(s: Snapshot, top: Pid, x: Pid)
    ensures forall chain :: Lineage(Base(s), top, chain, x) ==> x in Base(s)
  {}

  /** The processes summed and signalled after a full read are exactly the strict descendants of runsolver. */
  lemma VictimsAreDescendants(v: Records, read: set<Pid>, s: Snapshot, top: Pid, rank: Pid -> nat,
      owner: Pid -> Pid, x: Pid)
    requires Pass(v, s, top, rank, owner)
    ensures x in Swept(v, read, s, top, rank, owner) <==> exists chain :: Lineage(Base(s), top, chain, x)
  {
    hide Swept, Pass, Listed, Walk, Lineage, RootsOf;
    var g, roots := Listed(v), RootsOf(s, top);
    VictimsIgnoreTasks(v, read, s, top, rank, owner);
    FirstPassIsTree(v, s, top, rank, owner);
    RootsAre(v, s, top, rank, owner);
    InWalkAll(g, rank, rank(top), roots, x);
    if x in Descendants(v, s, top, rank, owner) {
      var r :| r in roots && x in Walk(g, rank, r);
      var path := PathOf(g, rank, r, x);
      PathIsLineage(v, s, top, rank, owner, path, x);
    }
    forall chain | Lineage(Base(s), top, chain, x) ensures x in Descendants(v, s, top, rank, owner) {
      PathIsLineage(v, s, top, rank, owner, chain, x);
      PathIsWalked(g, rank, chain);
    }
  }

  lemma FirstPassRecords(v: Records, s: Snapshot, top: Pid, rank: Pid -> nat, owner: Pid -> Pid)
    requires Pass(v, s, top, rank, owner)
    ensures forall p :: p in Base(s) <==> p in v
    ensures forall p :: p in v ==> p in Base(s) && v[p].info == Base(s)[p].info && v[p].valid
  {}

  lemma PathIsLineage(v: Records, s: Snapshot, top: Pid, rank: Pid -> nat, owner: Pid -> Pid, path: seq<Pid>, x: Pid)
    requires Pass(v, s, top, rank, owner)
    ensures Lineage(Base(s), top, path, x)
            <==> path != [] && path[0] in RootsOf(s, top) && Leads(Listed(v), path, path[0], x)
  {
    hide Pass, Base, RootsOf;
    RootsAre(v, s, top, rank, owner);
    FirstPassRecords(v, s, top, rank, owner);
    forall p, c | p in v ensures c in v[p].children <==> c in v && v[c].info.ppid == p {
      ChildrenOf(v, s, top, rank, owner, p);
    }
  }

  /** The subtree of a process after a full read, tasks included. */
  ghost function Subtree(v: Records, read: set<Pid>, s: Snapshot, top: Pid, rank: Pid -> nat, owner: Pid -> Pid,
      r: Pid): seq<Pid>
    requires Pass(v, s, top, rank, owner)
  {
    FullReadIsTree(v, read, s, top, rank, owner);
    GraphsAreAcyclic(WithTasks(v, read, s, owner), rank);
    Walk(Listed(WithTasks(v, read, s, owner)), rank, r)
  }

  /** The subtrees of two roots have nothing in common. */
  lemma RootsHaveDisjointSubtrees(v: Records, read: set<Pid>, s: Snapshot, top: Pid, rank: Pid -> nat,
      owner: Pid -> Pid,
                                  a: Pid, b: Pid, x: Pid)
    requires Pass(v, s, top, rank, owner)
    requires a in RootsOf(s, top) && b in RootsOf(s, top) && a != b
    ensures !(x in Subtree(v, read, s, top, rank, owner, a) && x in Subtree(v, read, s, top, rank, owner, b))
  {
    hide WithTasks, Pass, Walk, WalkAll;
    var w, up := WithTasks(v, read, s, owner), Parent(v, owner);
    FullReadIsTree(v, read, s, top, rank, owner);
    GraphsAreAcyclic(w, rank);
    GraphsAreTrees(w, up);
    if x in Walk(Listed(w), rank, a) {
      SiblingsAreDisjoint(Listed(w), rank, up, a, b, x);
    }
  }
}
