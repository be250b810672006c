/** What is kept on one process, and the graphs its child lists form. */
module ProcessData {
  import opened Forest
  import opened Wrappers

  /** What one read of /proc/<pid> gives; times in clock ticks. */
  datatype Reading = Reading(ppid: Pid, utime: nat, stime: nat, cutime: nat, cstime: nat, vsize: nat, rss: nat,
      swap: nat)

  const NO_TASK := Pid(0)
  const NO_PARENT := Pid(-1)

  /** The record of a process, or of a task of it when tid is not 0. */
  datatype ProcessData = ProcessData(pid: Pid, tid: Pid, valid: bool, info: Reading, children: seq<Pid>) {
    predicate IsTask() { tid != NO_TASK }

    function VSize(): nat { info.vsize / 1024 }

    function Memory(): nat { info.rss + info.swap }

    function UserTime(): nat { info.utime + info.cutime }

    function SystemTime(): nat { info.stime + info.cstime }

    /** The copy constructor: the copy keeps the children but is invalid until it is updated. */
    function Copied(): ProcessData { this.(valid := false) }

    /** A successful update: new figures, same children. */
    function Refreshed(reading: Reading): ProcessData { this.(valid := true, info := reading) }
  }

  /** The state of /proc during one pass: what reading a process, or a task, gives. */
  type Proc = (Pid, Pid) -> Option<Reading>

  /** The C++ map: operator[] leaves a null entry behind for a pid it does not find. */
  type ProcMap = map<Pid, Option<ProcessData>>

  type Records = map<Pid, ProcessData>

  /** The records of a tree: a null entry means the same as none. */
  function View(tree: ProcMap): Records {
    map p | p in tree && tree[p].Some? :: tree[p].value
  }

  lemma ViewOfUpdate(tree: ProcMap, p: Pid, d: ProcessData)
    ensures View(tree[p := Some(d)]) == View(tree)[p := d]
  {
    var a, b := View(tree[p := Some(d)]), View(tree)[p := d];
    forall q ensures (q in a <==> q in b) && (q in a && q in b ==> a[q] == b[q]) {}
    assert a.Keys == b.Keys;
  }

  lemma ViewOfErase(tree: ProcMap, p: Pid)
    ensures View(tree - {p}) == View(tree) - {p}
  {
    var a, b := View(tree - {p}), View(tree) - {p};
    forall q ensures (q in a <==> q in b) && (q in a && q in b ==> a[q] == b[q]) {}
    assert a.Keys == b.Keys;
  }

  /** All child lists. */
  ghost function Links(v: Records): Graph {
    map p | p in v :: v[p].children
  }

  /** What listing, printing and cloning walk: valid records, with all their children. */
  ghost function Listed(v: Records): Graph {
    map p | p in v && v[p].valid :: v[p].children
  }

  /** The children that are known and are no tasks. */
  ghost function Processes(v: Records, ps: seq<Pid>): seq<Pid> {
    if ps == [] then []
    else
      var last := |ps| - 1;
      Processes(v, ps[..last]) + if ps[last] in v && !v[ps[last]].IsTask() then [ps[last]] else []
  }

  /** What summing and signalling walk: valid records, with those of their children that are no tasks. */
  ghost function Solver(v: Records): Graph {
    map p | p in v && v[p].valid :: Processes(v, v[p].children)
  }

  /** A record stands under its own number: a process under its pid, a task under its tid. */
  predicate IsFiledUnder(d: ProcessData, p: Pid) {
    if d.IsTask() then d.tid == p else d.pid == p
  }

  /** A forest below `top`: each record has one parent, ranks fall from parent to child, tasks are leaves. */
  ghost predicate SolverTree(v: Records, roots: seq<Pid>, rank: Pid -> nat, up: Pid -> Pid, top: Pid) {
    && Acyclic(Links(v), rank)
    && Tree(Links(v), up)
    && Siblings(roots, rank, up, top)
    && (forall p :: p in v ==> IsFiledUnder(v[p], p))
    && (forall p :: p in v && v[p].IsTask() ==> v[p].children == [])
    && (forall r :: r in roots && r in v ==> !v[r].IsTask())
  }

  // ---- child lists without tasks ----

  lemma {:induction false} ProcessesMembers(v: Records, ps: seq<Pid>, c: Pid)
    ensures c in Processes(v, ps) <==> c in ps && c in v && !v[c].IsTask()
  {
    if ps != [] {
      ProcessesMembers(v, ps[..|ps| - 1], c);
      assert ps == ps[..|ps| - 1] + [ps[|ps| - 1]];
    }
  }

  lemma {:induction false} ProcessesNoDuplicates(v: Records, ps: seq<Pid>)
    requires NoDuplicates(ps)
    ensures NoDuplicates(Processes(v, ps))
  {
    if ps != [] {
      var last := |ps| - 1;
      ProcessesNoDuplicates(v, ps[..last]);
      ProcessesMembers(v, ps[..last], ps[last]);
      AppendDisjoint(Processes(v, ps[..last]), if ps[last] in v && !v[ps[last]].IsTask() then [ps[last]] else []);
    }
  }

  lemma GraphsAreAcyclic(v: Records, rank: Pid -> nat)
    requires Acyclic(Links(v), rank)
    ensures Acyclic(Listed(v), rank) && Acyclic(Solver(v), rank)
  {
    forall p, c | p in Solver(v) && c in Solver(v)[p] ensures rank(c) < rank(p) {
      ProcessesMembers(v, v[p].children, c);
      assert c in Links(v)[p];
    }
    forall p, c | p in Listed(v) && c in Listed(v)[p] ensures rank(c) < rank(p) {
      assert c in Links(v)[p];
    }
  }

  lemma GraphsAreTrees(v: Records, up: Pid -> Pid)
    requires Tree(Links(v), up)
    ensures Tree(Listed(v), up) && Tree(Solver(v), up)
  {
    forall p | p in Solver(v) ensures NoDuplicates(Solver(v)[p]) {
      assert NoDuplicates(Links(v)[p]);
      ProcessesNoDuplicates(v, v[p].children);
    }
    forall p, c | p in Solver(v) && c in Solver(v)[p] ensures up(c) == p {
      ProcessesMembers(v, v[p].children, c);
      assert c in Links(v)[p];
    }
    forall p | p in Listed(v) ensures NoDuplicates(Listed(v)[p]) {
      assert NoDuplicates(Links(v)[p]);
    }
    forall p, c | p in Listed(v) && c in Listed(v)[p] ensures up(c) == p {
      assert c in Links(v)[p];
    }
  }

  /** The processes that are summed and signalled are those that are listed, without the tasks. */
  lemma {:induction false} SolverIsListedWithoutTasks(v: Records, rank: Pid -> nat, p: Pid, x: Pid)
    requires Acyclic(Links(v), rank) && Acyclic(Listed(v), rank) && Acyclic(Solver(v), rank)
    requires forall t :: t in v && v[t].IsTask() ==> v[t].children == []
    requires p in v ==> !v[p].IsTask()
    ensures x in Walk(Solver(v), rank, p) <==> x in Walk(Listed(v), rank, p) && x in v && !v[x].IsTask()
    decreases rank(p)
  {
    if p in Listed(v) && x != p {
      var cs := v[p].children;
      InWalkAll(Listed(v), rank, rank(p), cs, x);
      InWalkAll(Solver(v), rank, rank(p), Processes(v, cs), x);
      forall c | c in cs && c in v && !v[c].IsTask()
        ensures x in Walk(Solver(v), rank, c) <==> x in Walk(Listed(v), rank, c) && x in v && !v[x].IsTask()
      {
        SolverIsListedWithoutTasks(v, rank, c, x);
      }
      forall c ensures c in Processes(v, cs) <==> c in cs && c in v && !v[c].IsTask() {
        ProcessesMembers(v, cs, c);
      }
      forall c | c in cs && x in Walk(Listed(v), rank, c) ensures c in v && (v[c].IsTask() ==> x == c) {
        WalkIsBelow(Listed(v), rank, c, x);
      }
    }
  }

  // ---- totals ----

  ghost function Figure(v: Records, f: ProcessData -> int, p: Pid): int {
    if p in v then f(v[p]) else 0
  }

  function VSizeOf(d: ProcessData): int { d.VSize() }
  function MemoryOf(d: ProcessData): int { d.Memory() }
  function UserTimeOf(d: ProcessData): int { d.UserTime() }
  function SystemTimeOf(d: ProcessData): int { d.SystemTime() }

  /** The sum of a figure over a sequence of processes. */
  ghost function Total(v: Records, f: ProcessData -> int, ps: seq<Pid>): int {
    if ps == [] then 0 else Total(v, f, ps[..|ps| - 1]) + Figure(v, f, ps[|ps| - 1])
  }

  /** The sum of a figure over a set of processes. */
  ghost function SetTotal(v: Records, f: ProcessData -> int, s: set<Pid>): int {
    if s == {} then 0
    else
      var p :| p in s;
      SetTotal(v, f, s - {p}) + Figure(v, f, p)
  }

  lemma {:induction false} TotalAppend(v: Records, f: ProcessData -> int, a: seq<Pid>, b: seq<Pid>)
    ensures Total(v, f, a + b) == Total(v, f, a) + Total(v, f, b)
  {
    if b == [] {
      assert a + b == a;
    } else {
      var last := |b| - 1;
      TotalAppend(v, f, a, b[..last]);
      assert (a + b)[..|a + b| - 1] == a + b[..last];
    }
  }

  lemma {:induction false} SetTotalRemove(v: Records, f: ProcessData -> int, s: set<Pid>, x: Pid)
    requires x in s
    ensures SetTotal(v, f, s) == SetTotal(v, f, s - {x}) + Figure(v, f, x)
  {
    var p :| p in s && SetTotal(v, f, s) == SetTotal(v, f, s - {p}) + Figure(v, f, p);
    if p != x {
      SetTotalRemove(v, f, s - {p}, x);
      SetTotalRemove(v, f, s - {x}, p);
      assert s - {p} - {x} == s - {x} - {p};
    }
  }

  lemma {:induction false} TotalIsSetTotal(v: Records, f: ProcessData -> int, ps: seq<Pid>)
    requires NoDuplicates(ps)
    ensures Total(v, f, ps) == SetTotal(v, f, Elements(ps))
  {
    if ps != [] {
      var last := |ps| - 1;
      TotalIsSetTotal(v, f, ps[..last]);
      var s := Elements(ps);
      assert ps == ps[..last] + [ps[last]];
      assert s - {ps[last]} == Elements(ps[..last]);
      SetTotalRemove(v, f, s, ps[last]);
    }
  }

  /** The processes that are summed and signalled, in the order in which they are signalled. */
  ghost function Victims(v: Records, rank: Pid -> nat, top: Pid, roots: seq<Pid>): seq<Pid>
    requires Acyclic(Links(v), rank) && Below(rank, rank(top), roots)
  {
    GraphsAreAcyclic(v, rank);
    WalkAll(Solver(v), rank, rank(top), roots)
  }

  /** The set that listProcesses produces. */
  ghost function ListedSet(v: Records, rank: Pid -> nat, top: Pid, roots: seq<Pid>): set<Pid>
    requires Acyclic(Links(v), rank) && Below(rank, rank(top), roots)
  {
    GraphsAreAcyclic(v, rank);
    Elements(WalkAll(Listed(v), rank, rank(top), roots))
  }

  /** The listed processes without the tasks. */
  ghost function SolverSet(v: Records, rank: Pid -> nat, top: Pid, roots: seq<Pid>): set<Pid>
    requires Acyclic(Links(v), rank) && Below(rank, rank(top), roots)
  {
    set p | p in ListedSet(v, rank, top, roots) && p in v && !v[p].IsTask()
  }

  /** The recursive totals count each listed process that is no task exactly once. */
  lemma TotalsCountEachProcessOnce(v: Records, roots: seq<Pid>, rank: Pid -> nat, up: Pid -> Pid, top: Pid,
      f: ProcessData -> int)
    requires SolverTree(v, roots, rank, up, top)
    ensures Total(v, f, Victims(v, rank, top, roots))
            == SetTotal(v, f, SolverSet(v, rank, top, roots))
  {
    var s := Victims(v, rank, top, roots);
    GraphsAreAcyclic(v, rank);
    GraphsAreTrees(v, up);
    WalkAllHasNoDuplicates(Solver(v), rank, up, top, roots);
    TotalIsSetTotal(v, f, s);
    forall p ensures p in s <==> p in ListedSet(v, rank, top, roots) && p in v && !v[p].IsTask() {
      VictimsAreListed(v, roots, rank, up, top, p);
    }
    assert Elements(s) == SolverSet(v, rank, top, roots);
  }

  lemma VictimsAreListed(v: Records, roots: seq<Pid>, rank: Pid -> nat, up: Pid -> Pid, top: Pid, p: Pid)
    requires SolverTree(v, roots, rank, up, top)
    ensures p in Victims(v, rank, top, roots) <==> p in ListedSet(v, rank, top, roots) && p in v && !v[p].IsTask()
  {
    GraphsAreAcyclic(v, rank);
    InWalkAll(Solver(v), rank, rank(top), roots, p);
    InWalkAll(Listed(v), rank, rank(top), roots, p);
    forall r | r in roots
      ensures p in Walk(Solver(v), rank, r) <==> p in Walk(Listed(v), rank, r) && p in v && !v[p].IsTask()
    {
      SolverIsListedWithoutTasks(v, rank, r, p);
    }
  }

  /** A bottom-up sweep signals each reachable valid process that is no task exactly once, no task,
      and a process only after all its signalled descendants. */
  lemma SweepIsBottomUp(v: Records, roots: seq<Pid>, rank: Pid -> nat, up: Pid -> Pid, top: Pid)
    requires SolverTree(v, roots, rank, up, top)
    ensures NoDuplicates(Victims(v, rank, top, roots))
    ensures forall x :: x in Victims(v, rank, top, roots)
                        <==> && x in v && !v[x].IsTask()
                             && exists path :: path != [] && path[0] in roots && Leads(Listed(v), path, path[0], x)
    ensures var s := Victims(v, rank, top, roots);
            forall i, j, path :: 0 <= i < |s| && 0 <= j < |s| && i != j && Leads(Solver(v), path, s[j], s[i]) ==> i < j
  {
    var s := Victims(v, rank, top, roots);
    GraphsAreAcyclic(v, rank);
    GraphsAreTrees(v, up);
    WalkAllHasNoDuplicates(Solver(v), rank, up, top, roots);
    forall x ensures x in s
                     <==> && x in v && !v[x].IsTask()
                          && exists path :: path != [] && path[0] in roots && Leads(Listed(v), path, path[0], x)
    {
      VictimsAreListed(v, roots, rank, up, top, x);
      InWalkAll(Listed(v), rank, rank(top), roots, x);
      forall r | r in roots
        ensures x in Walk(Listed(v), rank, r) <==> exists path :: Leads(Listed(v), path, r, x)
      {
        WalkIsReachability(Listed(v), rank, r, x);
      }
    }
    forall i, j, path | 0 <= i < |s| && 0 <= j < |s| && i != j && Leads(Solver(v), path, s[j], s[i]) ensures i < j {
      WalkIsReachability(Solver(v), rank, s[j], s[i]);
      DescendantsComeFirst(Solver(v), rank, up, top, roots, i, j);
    }
  }
}
