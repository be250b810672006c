/** What a full read of /proc makes of a snapshot of it. */
module ProcessSnapshot {
  import opened Forest
  import opened ProcessData
  import opened Wrappers

  /** The numbers in /proc in directory order, what reading each gives, and the numbers in /proc/<pid>/task. */
  datatype Snapshot = Snapshot(listing: seq<Pid>, proc: Proc, tasks: Pid -> seq<Pid>)

  /** The record of a process that could be read. */
  function Fresh(s: Snapshot, p: Pid): ProcessData
    requires s.proc(p, NO_TASK).Some?
  {
    ProcessData(p, NO_TASK, true, s.proc(p, NO_TASK).value, [])
  }

  /** The records of the first i entries of the listing. */
  ghost function Found(s: Snapshot, i: nat): Records
    requires i <= |s.listing|
  {
    map p | p in s.listing[..i] && s.proc(p, NO_TASK).Some? :: Fresh(s, p)
  }

  ghost function Base(s: Snapshot): Records {
    Found(s, |s.listing|)
  }

  /** Base has a record for each listed process that could be read, with what was read. */
  lemma BaseHolds(s: Snapshot, p: Pid)
    ensures p in Base(s) <==> p in s.listing && s.proc(p, NO_TASK).Some?
    ensures p in Base(s) ==> && Base(s)[p].pid == p && Base(s)[p].tid == NO_TASK && Base(s)[p].valid
                             && Base(s)[p].children == [] && s.proc(p, NO_TASK) == Some(Base(s)[p].info)
  {
    assert s.listing[..|s.listing|] == s.listing;
  }

  lemma FoundNone(s: Snapshot)
    ensures Found(s, 0) == map[]
  {}

  lemma FoundStep(s: Snapshot, i: nat)
    requires i < |s.listing|
    ensures var p := s.listing[i];
            Found(s, i + 1) == if s.proc(p, NO_TASK).Some? then Found(s, i)[p := Fresh(s, p)] else Found(s, i)
  {
    var p := s.listing[i];
    assert s.listing[..i + 1] == s.listing[..i] + [p];
    var a, b := Found(s, i + 1), if s.proc(p, NO_TASK).Some? then Found(s, i)[p := Fresh(s, p)] else Found(s, i);
    forall q ensures (q in a <==> q in b) && (q in a && q in b ==> a[q] == b[q]) {}
    assert a.Keys == b.Keys;
  }

  /** The roots among the first i entries: the children of runsolver, in directory order. */
  function Roots(s: Snapshot, top: Pid, i: nat): seq<Pid>
    requires i <= |s.listing|
  {
    if i == 0 then []
    else
      var p := s.listing[i - 1];
      Roots(s, top, i - 1) + if s.proc(p, NO_TASK).Some? && s.proc(p, NO_TASK).value.ppid == top then [p] else []
  }

  /** The tasks of p that could be read, among the first i entries of its task directory. */
  function TaskList(s: Snapshot, p: Pid, i: nat): seq<Pid>
    requires i <= |s.tasks(p)|
  {
    if i == 0 then []
    else
      var t := s.tasks(p)[i - 1];
      TaskList(s, p, i - 1) + if t != p && s.proc(p, t).Some? then [t] else []
  }

  lemma RootsGrow(s: Snapshot, top: Pid, i: nat)
    requires i < |s.listing|
    ensures var p := s.listing[i];
            Roots(s, top, i + 1) == if s.proc(p, NO_TASK).Some? && s.proc(p, NO_TASK).value.ppid == top
                                    then Roots(s, top, i) + [p] else Roots(s, top, i)
  {}

  lemma TaskListGrows(s: Snapshot, p: Pid, i: nat)
    requires i < |s.tasks(p)|
    ensures var t := s.tasks(p)[i];
            TaskList(s, p, i + 1) == if t != p && s.proc(p, t).Some? then TaskList(s, p, i) + [t] else TaskList(s, p, i)
  {}

  function AllTasks(s: Snapshot, p: Pid): seq<Pid> {
    TaskList(s, p, |s.tasks(p)|)
  }

  /** What the system guarantees of a snapshot: numbers are positive and listed once, no process is its own ancestor,
      and the numbers of tasks are neither shared nor those of processes. */
  ghost predicate Orderly(s: Snapshot, top: Pid, rank: Pid -> nat, owner: Pid -> Pid) {
    && NoDuplicates(s.listing)
    && (forall p :: p in s.listing ==> p.number > 0)
    && (forall p, q :: p in Base(s) && q in Base(s) && Base(s)[p].info.ppid == q ==> rank(p) < rank(q))
    && (forall p :: p in Base(s) && Base(s)[p].info.ppid == top ==> rank(p) < rank(top))
    && (forall p :: p in Base(s) ==> NoDuplicates(s.tasks(p)))
    && (forall p, t :: p in Base(s) && t in s.tasks(p) && t != p
                       ==> t.number > 0 && t !in s.listing && owner(t) == p && rank(t) < rank(p))
  }

  // ---- child lists ----

  ghost predicate Sorted(ps: seq<Pid>) {
    forall i, j :: 0 <= i < j < |ps| ==> ps[i].number < ps[j].number
  }

  /** The valid children of p among the processes already seen, in ascending order. */
  ghost predicate IsChildList(base: Records, seen: set<Pid>, p: Pid, ps: seq<Pid>) {
    && Sorted(ps)
    && forall q :: q in ps <==> q in seen && q in base && base[q].valid && base[q].info.ppid == p && p != NO_PARENT
  }

  /** The children added to those that p had in base. */
  function Added(v: Records, base: Records, p: Pid): seq<Pid>
    requires p in v && p in base && base[p].children <= v[p].children
  {
    v[p].children[|base[p].children|..]
  }

  /** The records of base, their child lists extended by the children among the processes already seen. */
  ghost predicate Linked(v: Records, base: Records, seen: set<Pid>) {
    && (forall p :: p in v <==> p in base)
    && (forall p :: p in v ==> && base[p].children <= v[p].children && v[p] == base[p].(children := v[p].children)
                               && IsChildList(base, seen, p, Added(v, base, p)))
  }

  /** One turn of the loop over all entries: a null or invalid one is passed over, as is one without a known parent. */
  function LinkedTo(v: Records, q: Pid): Records {
    if q in v && v[q].valid && v[q].info.ppid != NO_PARENT && v[q].info.ppid in v then
      var parent := v[q].info.ppid;
      v[parent := v[parent].(children := v[parent].children + [q])]
    else v
  }

  /** Appending the least process not yet seen keeps the lists sorted. */
  lemma LinkOne(v: Records, base: Records, seen: set<Pid>, q: Pid)
    requires Linked(v, base, seen) && q !in seen
    requires forall p :: p in seen ==> p.number < q.number
    ensures Linked(LinkedTo(v, q), base, seen + {q})
  {
    hide IsChildList;
    forall p | p in LinkedTo(v, q)
      ensures base[p].children <= LinkedTo(v, q)[p].children
      ensures LinkedTo(v, q)[p] == base[p].(children := LinkedTo(v, q)[p].children)
      ensures IsChildList(base, seen + {q}, p, Added(LinkedTo(v, q), base, p))
    {
      ChildListWithNext(base, seen, p, Added(v, base, p), q);
      if LinkedTo(v, q)[p] != v[p] {
        assert Added(LinkedTo(v, q), base, p) == Added(v, base, p) + [q];
      }
    }
  }

  lemma ChildListWithNext(base: Records, seen: set<Pid>, p: Pid, ps: seq<Pid>, q: Pid)
    requires IsChildList(base, seen, p, ps) && forall c :: c in seen ==> c.number < q.number
    ensures var more := q in base && base[q].valid && base[q].info.ppid == p && p != NO_PARENT;
            IsChildList(base, seen + {q}, p, if more then ps + [q] else ps)
  {
    SortedWithNext(ps, q);
  }

  lemma SortedWithNext(ps: seq<Pid>, q: Pid)
    requires Sorted(ps) && forall c :: c in ps ==> c.number < q.number
    ensures Sorted(ps + [q])
  {
    forall i, j | 0 <= i < j < |ps + [q]| ensures (ps + [q])[i].number < (ps + [q])[j].number {
      if j == |ps| { assert ps[i] in ps; }
    }
  }

  lemma NothingLinked(base: Records)
    ensures Linked(base, base, {})
  {}

  lemma LinkedInfo(v: Records, base: Records, seen: set<Pid>, q: Pid)
    requires Linked(v, base, seen)
    ensures q in v <==> q in base
    ensures q in v ==> v[q].info == base[q].info && v[q].valid == base[q].valid
  {}

  lemma {:induction false} LeastExists(todo: set<Pid>)
    requires todo != {}
    ensures exists q :: q in todo && forall p :: p in todo ==> q.number <= p.number
  {
    var q :| q in todo;
    if p :| p in todo && p.number < q.number {
      assert p in todo - {q};
      LeastExists(todo - {q});
      var least :| least in todo - {q} && forall p :: p in todo - {q} ==> least.number <= p.number;
      assert forall p :: p in todo ==> p == q || p in todo - {q};
    }
  }

  lemma SortedHasNoDuplicates(ps: seq<Pid>)
    requires Sorted(ps)
    ensures NoDuplicates(ps)
  {}

  // ---- roots and tasks ----

  lemma {:induction false} RootsMembers(s: Snapshot, top: Pid, i: nat, r: Pid)
    requires i <= |s.listing|
    ensures r in Roots(s, top, i) <==> r in Found(s, i) && Found(s, i)[r].info.ppid == top
  {
    if i > 0 {
      RootsMembers(s, top, i - 1, r);
      assert s.listing[..i] == s.listing[..i - 1] + [s.listing[i - 1]];
    }
  }

  /** The roots are in directory order. */
  lemma {:induction false} RootsInOrder(s: Snapshot, top: Pid, i: nat, j: nat, k: nat) returns (a: nat, b: nat)
    requires i <= |s.listing| && j < k < |Roots(s, top, i)|
    ensures a < b < i && Roots(s, top, i)[j] == s.listing[a] && Roots(s, top, i)[k] == s.listing[b]
  {
    if k < |Roots(s, top, i - 1)| {
      a, b := RootsInOrder(s, top, i - 1, j, k);
    } else {
      a := RootIsListed(s, top, i - 1, j);
      b := i - 1;
    }
  }

  lemma {:induction false} RootIsListed(s: Snapshot, top: Pid, i: nat, j: nat) returns (a: nat)
    requires i <= |s.listing| && j < |Roots(s, top, i)|
    ensures a < i && Roots(s, top, i)[j] == s.listing[a]
  {
    if j < |Roots(s, top, i - 1)| {
      a := RootIsListed(s, top, i - 1, j);
    } else {
      a := i - 1;
    }
  }

  lemma {:induction false} RootsNoDuplicates(s: Snapshot, top: Pid, i: nat)
    requires i <= |s.listing| && NoDuplicates(s.listing)
    ensures NoDuplicates(Roots(s, top, i))
  {
    if i > 0 {
      RootsNoDuplicates(s, top, i - 1);
      var p := s.listing[i - 1];
      RootsMembers(s, top, i - 1, p);
      assert p !in s.listing[..i - 1];
      AppendDisjoint(Roots(s, top, i - 1), if p in Roots(s, top, i) then [p] else []);
    }
  }

  lemma {:induction false} TaskListMembers(s: Snapshot, p: Pid, i: nat, t: Pid)
    requires i <= |s.tasks(p)|
    ensures t in TaskList(s, p, i) <==> t in s.tasks(p)[..i] && t != p && s.proc(p, t).Some?
  {
    if i > 0 {
      TaskListMembers(s, p, i - 1, t);
      assert s.tasks(p)[..i] == s.tasks(p)[..i - 1] + [s.tasks(p)[i - 1]];
    }
  }

  lemma {:induction false} TaskListNoDuplicates(s: Snapshot, p: Pid, i: nat)
    requires i <= |s.tasks(p)| && NoDuplicates(s.tasks(p))
    ensures NoDuplicates(TaskList(s, p, i))
  {
    if i > 0 {
      TaskListNoDuplicates(s, p, i - 1);
      var t := s.tasks(p)[i - 1];
      TaskListMembers(s, p, i - 1, t);
      assert t !in s.tasks(p)[..i - 1];
      AppendDisjoint(TaskList(s, p, i - 1), if t != p && s.proc(p, t).Some? then [t] else []);
    }
  }

  /** The record of a task. */
  function FreshTask(s: Snapshot, p: Pid, t: Pid): ProcessData
    requires s.proc(p, t).Some?
  {
    ProcessData(p, t, true, s.proc(p, t).value, [])
  }

  ghost predicate IsTaskOf(s: Snapshot, t: Pid, p: Pid) {
    t in AllTasks(s, p) && s.proc(p, t).Some?
  }

  ghost function TaskSet(v: Records, read: set<Pid>, s: Snapshot): set<Pid> {
    set p, t | p in read && p in v && t in AllTasks(s, p) :: t
  }

  /** The records v with the tasks of the processes in `read`. */
  ghost function WithTasks(v: Records, read: set<Pid>, s: Snapshot, owner: Pid -> Pid): Records {
    (map p | p in v :: if p in read then v[p].(children := v[p].children + AllTasks(s, p)) else v[p])
    + (map t | t in TaskSet(v, read, s) && IsTaskOf(s, t, owner(t)) :: FreshTask(s, owner(t), t))
  }

  /** The records w with the tasks ts of p, linked to p. */
  ghost function Attach(w: Records, p: Pid, ts: seq<Pid>, s: Snapshot): Records
    requires p in w && forall t :: t in ts ==> s.proc(p, t).Some?
  {
    (w + map t | t in ts :: FreshTask(s, p, t))[p := w[p].(children := w[p].children + ts)]
  }

  lemma AttachOne(w: Records, p: Pid, ts: seq<Pid>, t: Pid, s: Snapshot)
    requires p in w && (forall u :: u in ts + [t] ==> s.proc(p, u).Some?) && t != p
    ensures (forall u :: u in ts ==> s.proc(p, u).Some?) && s.proc(p, t).Some?
    ensures var w' := Attach(w, p, ts, s)[t := FreshTask(s, p, t)];
            p in w' && Attach(w, p, ts + [t], s) == w'[p := w'[p].(children := w'[p].children + [t])]
  {
    assert forall u :: u in ts ==> u in ts + [t];
    assert t in ts + [t];
    assert w[p].children + ts + [t] == w[p].children + (ts + [t]);
  }

  lemma AttachNone(w: Records, p: Pid, s: Snapshot)
    requires p in w
    ensures Attach(w, p, [], s) == w
  {
    assert w[p].children + [] == w[p].children;
  }

  /** The tasks of the processes that were found. */
  lemma TasksOf(s: Snapshot, top: Pid, rank: Pid -> nat, owner: Pid -> Pid, p: Pid)
    requires Orderly(s, top, rank, owner) && p in Base(s)
    ensures NoDuplicates(AllTasks(s, p))
    ensures forall t :: t in AllTasks(s, p)
                        ==> && IsTaskOf(s, t, p) && owner(t) == p && t != p && t !in s.listing
                            && t != NO_TASK && rank(t) < rank(p)
  {
    TaskListNoDuplicates(s, p, |s.tasks(p)|);
    forall t | t in AllTasks(s, p)
      ensures IsTaskOf(s, t, p) && owner(t) == p && t != p && t !in s.listing && t != NO_TASK && rank(t) < rank(p)
    {
      TaskListMembers(s, p, |s.tasks(p)|, t);
    }
  }

  /** The records after the first pass: all processes, linked by ppid. */
  ghost predicate FirstPass(v: Records, s: Snapshot) {
    Linked(v, Base(s), Base(s).Keys)
  }

  lemma InListing(v: Records, s: Snapshot, p: Pid)
    requires FirstPass(v, s) && p in v
    ensures p in Base(s) && p in s.listing && v[p].pid == p && v[p].tid == NO_TASK && v[p].valid
  {}

  lemma WithTasksAt(v: Records, read: set<Pid>, s: Snapshot, owner: Pid -> Pid, x: Pid)
    ensures var w := WithTasks(v, read, s, owner);
            if x in TaskSet(v, read, s) && IsTaskOf(s, x, owner(x))
            then x in w && w[x] == FreshTask(s, owner(x), x)
            else && (x in w <==> x in v)
                 && (x in v ==> w[x] == if x in read then v[x].(children := v[x].children + AllTasks(s, x)) else v[x])
  {}

  lemma AttachAt(w: Records, p: Pid, ts: seq<Pid>, s: Snapshot, x: Pid)
    requires p in w && forall t :: t in ts ==> s.proc(p, t).Some?
    ensures var a := Attach(w, p, ts, s);
            if x == p then x in a && a[x] == w[p].(children := w[p].children + ts)
            else if x in ts then x in a && a[x] == FreshTask(s, p, x)
            else (x in a <==> x in w) && (x in w ==> a[x] == w[x])
  {}

  /** Attaching its tasks to one more process. */
  lemma WithOneMore(v: Records, read: set<Pid>, s: Snapshot, top: Pid, rank: Pid -> nat, owner: Pid -> Pid, p: Pid)
    requires Orderly(s, top, rank, owner) && FirstPass(v, s) && p in v && p !in read
    ensures p in WithTasks(v, read, s, owner) && WithTasks(v, read, s, owner)[p] == v[p]
    ensures forall t :: t in AllTasks(s, p) ==> s.proc(p, t).Some?
    ensures Attach(WithTasks(v, read, s, owner), p, AllTasks(s, p), s) == WithTasks(v, read + {p}, s, owner)
  {
    hide WithTasks, Attach, AllTasks, Orderly, FirstPass;
    InListing(v, s, p);
    TasksOf(s, top, rank, owner, p);
    NotATask(v, read, s, top, rank, owner, p);
    WithTasksAt(v, read, s, owner, p);
    var a, b := Attach(WithTasks(v, read, s, owner), p, AllTasks(s, p), s), WithTasks(v, read + {p}, s, owner);
    forall x ensures (x in a <==> x in b) && (x in a && x in b ==> a[x] == b[x]) {
      AttachAt(WithTasks(v, read, s, owner), p, AllTasks(s, p), s, x);
      WithTasksAt(v, read, s, owner, x);
      WithTasksAt(v, read + {p}, s, owner, x);
      if x in v {
        NotATask(v, read, s, top, rank, owner, x);
        NotATask(v, read + {p}, s, top, rank, owner, x);
      }
    }
    assert a.Keys == b.Keys;
  }

  lemma NotATask(v: Records, read: set<Pid>, s: Snapshot, top: Pid, rank: Pid -> nat, owner: Pid -> Pid, p: Pid)
    requires Orderly(s, top, rank, owner) && FirstPass(v, s) && p in v
    ensures p !in TaskSet(v, read, s)
  {
    InListing(v, s, p);
    if p in TaskSet(v, read, s) {
      var q :| q in read && q in v && p in AllTasks(s, q);
      InListing(v, s, q);
      TasksOf(s, top, rank, owner, q);
    }
  }

  lemma WithNone(v: Records, s: Snapshot, owner: Pid -> Pid)
    ensures WithTasks(v, {}, s, owner) == v
  {
    assert TaskSet(v, {}, s) == {};
  }
}
