/** Copying a tree and updating the copy without looking for new processes. */
module ProcessUpdate {
  import opened Forest
  import opened ProcessData
  import opened Readings
  import opened Wrappers

  ghost predicate Alive(d: ProcessData, proc: Proc) {
    proc(d.pid, d.tid).Some?
  }

  /** A record with new figures and the same pid, tid and children. */
  ghost function ReadAgain(d: ProcessData, reading: Reading): ProcessData {
    ProcessData(d.pid, d.tid, true, reading, d.children)
  }

  /** The records after the processes of `touched` have been read again: dead ones are erased. */
  ghost function Updated(v: Records, touched: set<Pid>, proc: Proc): Records {
    map p | p in v && (p in touched ==> Alive(v[p], proc))
      :: if p in touched then ReadAgain(v[p], proc(v[p].pid, v[p].tid).value) else v[p]
  }

  /** Of the processes touched, the dead ones have no record left, and the others have what /proc gives now, under the
      same pid, tid and children; nothing else has changed. */
  ghost predicate Refreshes(after: Records, before: Records, touched: set<Pid>, proc: Proc) {
    && (forall x :: x in touched && x in before && x !in after ==> proc(before[x].pid, before[x].tid).None?)
    && (forall x :: x in touched && x in after
                    ==> && x in before && after[x].valid && proc(before[x].pid, before[x].tid) == Some(after[x].info)
                        && after[x].pid == before[x].pid && after[x].tid == before[x].tid
                        && after[x].children == before[x].children)
    && (forall x :: x !in touched ==> (x in after <==> x in before) && (x in after ==> after[x] == before[x]))
  }

  lemma UpdatedIsRefreshed(v: Records, touched: set<Pid>, proc: Proc)
    ensures Refreshes(Updated(v, touched, proc), v, touched, proc)
  {}

  /** What an update reads: it goes on from the processes that are still alive only. */
  ghost function Visits(v: Records, proc: Proc): Graph {
    map p | p in v :: if Alive(v[p], proc) then v[p].children else []
  }

  /** The entries a copy consists of. */
  ghost function Cloned(v: Records, listed: set<Pid>): Records {
    map p | p in listed && p in v :: v[p].Copied()
  }

  /** v' has some of the records of v, with other figures perhaps. */
  ghost predicate Thinner(v': Records, v: Records) {
    forall p :: p in v' ==> && p in v
                            && v'[p].children == v[p].children && v'[p].tid == v[p].tid && v'[p].pid == v[p].pid
  }

  lemma ThinnerTree(v': Records, v: Records, roots: seq<Pid>, rank: Pid -> nat, up: Pid -> Pid, top: Pid)
    requires Thinner(v', v) && SolverTree(v, roots, rank, up, top)
    ensures SolverTree(v', roots, rank, up, top)
  {
    forall p | p in Links(v') ensures p in Links(v) && Links(v')[p] == Links(v)[p] {}
  }

  lemma ThinnerAcyclic(v': Records, v: Records, rank: Pid -> nat)
    requires Thinner(v', v) && Acyclic(Links(v), rank)
    ensures Acyclic(Links(v'), rank)
  {
    forall p | p in Links(v') ensures p in Links(v) && Links(v')[p] == Links(v)[p] {}
  }

  lemma VisitsAcyclic(v: Records, proc: Proc, rank: Pid -> nat)
    requires Acyclic(Links(v), rank)
    ensures Acyclic(Visits(v, proc), rank)
  {
    forall p, c | p in Visits(v, proc) && c in Visits(v, proc)[p] ensures rank(c) < rank(p) {
      assert c in Links(v)[p];
    }
  }

  lemma SameRecords(a: Records, b: Records)
    requires forall p :: p in a <==> p in b
    requires forall p :: p in a && p in b ==> a[p] == b[p]
    ensures a == b
  {}

  /** Two updates from the same state of /proc are one. */
  lemma UpdatesCompose(v: Records, a: set<Pid>, b: set<Pid>, proc: Proc)
    ensures Updated(Updated(v, a, proc), b, proc) == Updated(v, a + b, proc)
  {
    var once, twice := Updated(v, a + b, proc), Updated(Updated(v, a, proc), b, proc);
    forall p ensures p in once <==> p in twice {
      assert p in Updated(v, a, proc) <==> p in v && (p in a ==> Alive(v[p], proc));
    }
    SameRecords(once, twice);
  }

  lemma UpdatedIgnoresUnknown(v: Records, a: set<Pid>, b: set<Pid>, proc: Proc)
    requires forall p :: p in v ==> (p in a <==> p in b)
    ensures Updated(v, a, proc) == Updated(v, b, proc)
  {
    SameRecords(Updated(v, a, proc), Updated(v, b, proc));
  }

  lemma SameGraph(a: Graph, b: Graph)
    requires forall p :: p in a <==> p in b
    requires forall p :: p in a && p in b ==> a[p] == b[p]
    ensures a == b
  {}

  /** After part of an update, the rest of it visits what it would have visited at first, minus what was erased. */
  lemma VisitsAfter(v: Records, a: set<Pid>, proc: Proc, rank: Pid -> nat, p: Pid, x: Pid)
    requires Acyclic(Visits(v, proc), rank) && Acyclic(Visits(Updated(v, a, proc), proc), rank)
    ensures x in Walk(Visits(Updated(v, a, proc), proc), rank, p)
            <==> x in Walk(Visits(v, proc), rank, p) && !(x in v && x in a && !Alive(v[x], proc))
  {
    var g := Visits(v, proc);
    var gone := set d | d in v && d in a && !Alive(v[d], proc);
    SameGraph(Visits(Updated(v, a, proc), proc), Prune(g, g.Keys - gone));
    WalkWithoutLeaves(g, rank, gone, p, x);
  }

  /** One more child updated. */
  lemma UpdateStep(v: Records, a: set<Pid>, proc: Proc, rank: Pid -> nat, p: Pid)
    requires Acyclic(Visits(v, proc), rank) && Acyclic(Visits(Updated(v, a, proc), proc), rank)
    ensures var v' := Updated(v, a, proc);
            Updated(v', Elements(Walk(Visits(v', proc), rank, p)), proc)
            == Updated(v, a + Elements(Walk(Visits(v, proc), rank, p)), proc)
  {
    var v' := Updated(v, a, proc);
    var now := Elements(Walk(Visits(v', proc), rank, p));
    var first := Elements(Walk(Visits(v, proc), rank, p));
    forall x | x in v' ensures x in now <==> x in first {
      VisitsAfter(v, a, proc, rank, p, x);
    }
    UpdatedIgnoresUnknown(v', now, first, proc);
    UpdatesCompose(v, a, first, proc);
  }

  /** Reading one process again: a dead one is erased. */
  lemma UpdatedOne(v: Records, p: Pid, proc: Proc)
    requires p in v
    ensures Updated(v, {p}, proc)
            == if Alive(v[p], proc) then v[p := v[p].Refreshed(proc(v[p].pid, v[p].tid).value)] else v - {p}
    ensures Updated(v, {}, proc) == v
  {
    SameRecords(Updated(v, {p}, proc),
                if Alive(v[p], proc) then v[p := v[p].Refreshed(proc(v[p].pid, v[p].tid).value)] else v - {p});
    SameRecords(Updated(v, {}, proc), v);
  }

  lemma UpdatedNone(v: Records, a: set<Pid>, proc: Proc)
    requires forall p :: p in a ==> p !in v
    ensures Updated(v, a, proc) == v
  {
    SameRecords(Updated(v, a, proc), v);
  }

  /** Whether a process is there to be updated does not depend on the other updates. */
  lemma UpdatedIsAlive(v: Records, a: set<Pid>, proc: Proc, p: Pid)
    ensures p in Updated(v, a, proc) && Alive(Updated(v, a, proc)[p], proc) <==> p in v && Alive(v[p], proc)
  {}

  /** What an update needs: ranks that fall from parent to child. */
  ghost predicate Updatable(v: Records, rank: Pid -> nat, proc: Proc) {
    Acyclic(Links(v), rank) && Acyclic(Visits(v, proc), rank)
  }

  lemma UpdatableAfter(v: Records, a: set<Pid>, rank: Pid -> nat, proc: Proc)
    requires Updatable(v, rank, proc)
    ensures Updatable(Updated(v, a, proc), rank, proc)
  {
    ThinnerAcyclic(Updated(v, a, proc), v, rank);
    VisitsAcyclic(Updated(v, a, proc), proc, rank);
  }

  lemma ClonedOne(w: Records, v: Records, p: Pid)
    requires p in v
    ensures w + Cloned(v, {p}) == w[p := v[p].Copied()]
  {
    SameRecords(w + Cloned(v, {p}), w[p := v[p].Copied()]);
  }

  lemma ClonesCompose(w: Records, v: Records, a: set<Pid>, b: set<Pid>)
    ensures (w + Cloned(v, a)) + Cloned(v, b) == w + Cloned(v, a + b)
    ensures w + Cloned(v, {}) == w
  {
    SameRecords((w + Cloned(v, a)) + Cloned(v, b), w + Cloned(v, a + b));
    SameRecords(w + Cloned(v, {}), w);
  }

  /** The processes that are alive now. */
  ghost function Survivors(v: Records, proc: Proc): set<Pid> {
    set p | p in v && Alive(v[p], proc)
  }

  /** The copy of a tree: what the tree lists. */
  ghost function Copy(v: Records, roots: seq<Pid>, rank: Pid -> nat, top: Pid): Records
    requires Acyclic(Links(v), rank) && Below(rank, rank(top), roots)
  {
    Cloned(v, ListedSet(v, rank, top, roots))
  }

  lemma CopyIsAcyclic(v: Records, roots: seq<Pid>, rank: Pid -> nat, top: Pid, proc: Proc)
    requires Acyclic(Links(v), rank) && Below(rank, rank(top), roots)
    ensures Acyclic(Links(Copy(v, roots, rank, top)), rank)
    ensures Acyclic(Visits(Copy(v, roots, rank, top), proc), rank)
  {
    var copy := Copy(v, roots, rank, top);
    ThinnerAcyclic(copy, v, rank);
    VisitsAcyclic(copy, proc, rank);
  }

  /** What the simple update of the copy reads. */
  ghost function Touched(v: Records, roots: seq<Pid>, rank: Pid -> nat, top: Pid, proc: Proc): set<Pid>
    requires Acyclic(Links(v), rank) && Below(rank, rank(top), roots)
  {
    CopyIsAcyclic(v, roots, rank, top, proc);
    Elements(WalkAll(Visits(Copy(v, roots, rank, top), proc), rank, rank(top), roots))
  }

  /** The copy of a tree after its simple update. */
  ghost function UpdatedCopy(v: Records, roots: seq<Pid>, rank: Pid -> nat, top: Pid, proc: Proc): (r: Records)
    requires Acyclic(Links(v), rank) && Below(rank, rank(top), roots)
    ensures Acyclic(Links(r), rank)
  {
    ThinnerAcyclic(Updated(Copy(v, roots, rank, top), Touched(v, roots, rank, top, proc), proc), v, rank);
    Updated(Copy(v, roots, rank, top), Touched(v, roots, rank, top, proc), proc)
  }

  lemma UpdatedCopyIsThinner(v: Records, roots: seq<Pid>, rank: Pid -> nat, top: Pid, proc: Proc)
    requires Acyclic(Links(v), rank) && Below(rank, rank(top), roots)
    ensures Thinner(Copy(v, roots, rank, top), v)
    ensures Thinner(UpdatedCopy(v, roots, rank, top, proc), v)
    ensures Acyclic(Listed(UpdatedCopy(v, roots, rank, top, proc)), rank)
  {
    var after := UpdatedCopy(v, roots, rank, top, proc);
    ThinnerAcyclic(after, v, rank);
    GraphsAreAcyclic(after, rank);
  }

  /** The valid records after the update are those touched and alive. */
  lemma UpdatedCopyRecords(v: Records, listed: set<Pid>, touched: set<Pid>, proc: Proc)
    ensures Subgraph(Listed(Updated(Cloned(v, listed), touched, proc)), Links(v))
    ensures forall p :: p in Listed(Updated(Cloned(v, listed), touched, proc))
                        <==> p in v && p in listed && p in touched && Alive(v[p], proc)
    ensures forall p :: p in Updated(Cloned(v, listed), touched, proc) && p in touched
                        ==> p in v && Updated(Cloned(v, listed), touched, proc)[p]
                                      == ReadAgain(v[p], proc(v[p].pid, v[p].tid).value)
  {}

  lemma ListedSetIsValid(v: Records, roots: seq<Pid>, rank: Pid -> nat, top: Pid)
    requires Acyclic(Links(v), rank) && Below(rank, rank(top), roots)
    ensures forall d :: d in ListedSet(v, rank, top, roots) ==> d in v && v[d].valid
  {
    forall d | d in ListedSet(v, rank, top, roots) ensures d in v && v[d].valid {
      InWalkAll(Listed(v), rank, rank(top), roots, d);
      var r :| r in roots && d in Walk(Listed(v), rank, r);
      WalkIsBelow(Listed(v), rank, r, d);
    }
  }

  lemma SurvivorsAreTouched(v: Records, roots: seq<Pid>, rank: Pid -> nat, top: Pid, proc: Proc, x: Pid)
    requires Acyclic(Links(v), rank) && Below(rank, rank(top), roots)
    requires Acyclic(Prune(Listed(v), Survivors(v, proc)), rank)
    requires x in WalkAll(Prune(Listed(v), Survivors(v, proc)), rank, rank(top), roots)
    ensures x in Copy(v, roots, rank, top) && x in v && Alive(v[x], proc)
    ensures x in Touched(v, roots, rank, top, proc)
  {
    var bound, g := rank(top), Prune(Listed(v), Survivors(v, proc));
    var copy := Copy(v, roots, rank, top);
    CopyIsAcyclic(v, roots, rank, top, proc);
    var g' := Prune(g, copy.Keys);
    forall y | y in WalkAll(g, rank, bound, roots) ensures y in g' {
      InWalkAll(g, rank, bound, roots, y);
      InWalkAll(Listed(v), rank, bound, roots, y);
      var r :| r in roots && y in Walk(g, rank, r);
      SubgraphWalk(g, Listed(v), rank, r, y);
      WalkIsBelow(g, rank, r, y);
    }
    SameWalkAll(g', g, rank, bound, roots);
    InWalkAll(g', rank, bound, roots, x);
    InWalkAll(Visits(copy, proc), rank, bound, roots, x);
    var r :| r in roots && x in Walk(g', rank, r);
    SubgraphWalk(g', Visits(copy, proc), rank, r, x);
  }

  /** The updated copy lists exactly the walk over the survivors of the original, each read again. */
  lemma UpdatedCopyWalk(v: Records, roots: seq<Pid>, rank: Pid -> nat, top: Pid, proc: Proc)
    requires Acyclic(Links(v), rank) && Below(rank, rank(top), roots)
    requires Acyclic(Prune(Listed(v), Survivors(v, proc)), rank)
    requires Acyclic(Listed(UpdatedCopy(v, roots, rank, top, proc)), rank)
    ensures WalkAll(Listed(UpdatedCopy(v, roots, rank, top, proc)), rank, rank(top), roots)
            == WalkAll(Prune(Listed(v), Survivors(v, proc)), rank, rank(top), roots)
  {
    hide Walk, WalkAll;
    var after := Listed(UpdatedCopy(v, roots, rank, top, proc));
    var g := Prune(Listed(v), Survivors(v, proc));
    UpdatedCopyRecords(v, ListedSet(v, rank, top, roots), Touched(v, roots, rank, top, proc), proc);
    forall x | x in WalkAll(g, rank, rank(top), roots) ensures x in after {
      SurvivorsAreTouched(v, roots, rank, top, proc, x);
    }
    ListedSetIsValid(v, roots, rank, top);
    SameWalkAll(after, g, rank, rank(top), roots);
  }

  /** After a copy and its simple update, the reachable valid entries are those reachable before, minus the dead
      processes and all their descendants; and the child lists still form a tree. */
  lemma UpdateCutsOffTheDead(v: Records, roots: seq<Pid>, rank: Pid -> nat, up: Pid -> Pid, top: Pid, proc: Proc,
      x: Pid)
    requires SolverTree(v, roots, rank, up, top) && Acyclic(Listed(v), rank)
    requires Acyclic(Listed(UpdatedCopy(v, roots, rank, top, proc)), rank)
    ensures x in ListedSet(UpdatedCopy(v, roots, rank, top, proc), rank, top, roots)
            <==> && x in ListedSet(v, rank, top, roots)
                 && !exists d :: && d in ListedSet(v, rank, top, roots) && d in v && !Alive(v[d], proc)
                                 && x in Walk(Listed(v), rank, d)
    ensures SolverTree(UpdatedCopy(v, roots, rank, top, proc), roots, rank, up, top)
  {
    hide Walk, WalkAll;
    var alive := Survivors(v, proc);
    PruneIsAcyclic(Listed(v), rank, alive);
    UpdatedCopyWalk(v, roots, rank, top, proc);
    GraphsAreTrees(v, up);
    PruneCutsOffSubtrees(Listed(v), rank, up, top, roots, alive, x);
    ListedSetIsValid(v, roots, rank, top);
    UpdatedCopyIsThinner(v, roots, rank, top, proc);
    ThinnerTree(UpdatedCopy(v, roots, rank, top, proc), v, roots, rank, up, top);
  }

  /** `after` lists exactly what v lists, minus the processes dead in `proc` and all their descendants. */
  ghost predicate DeadCutOff(after: Records, v: Records, roots: seq<Pid>, rank: Pid -> nat, up: Pid -> Pid,
      top: Pid, proc: Proc)
    requires SolverTree(v, roots, rank, up, top) && SolverTree(after, roots, rank, up, top)
  {
    GraphsAreAcyclic(v, rank);
    GraphsAreAcyclic(after, rank);
    forall x :: x in ListedSet(after, rank, top, roots)
                <==> && x in ListedSet(v, rank, top, roots)
                     && !exists d :: d in ListedSet(v, rank, top, roots) && d in v && !Alive(v[d], proc)
                                     && x in Walk(Listed(v), rank, d)
  }

  lemma UpdatedCopyIsCutOff(v: Records, roots: seq<Pid>, rank: Pid -> nat, up: Pid -> Pid, top: Pid, proc: Proc)
    requires SolverTree(v, roots, rank, up, top)
    ensures SolverTree(UpdatedCopy(v, roots, rank, top, proc), roots, rank, up, top)
    ensures DeadCutOff(UpdatedCopy(v, roots, rank, top, proc), v, roots, rank, up, top, proc)
  {
    hide Walk, WalkAll, UpdatedCopy, ListedSet, Alive;
    GraphsAreAcyclic(v, rank);
    UpdatedCopyIsThinner(v, roots, rank, top, proc);
    forall x {
      UpdateCutsOffTheDead(v, roots, rank, up, top, proc, x);
    }
  }

  /** Everything the updated copy lists is alive and carries the figures just read. */
  lemma ListedAfterUpdateIsFresh(v: Records, roots: seq<Pid>, rank: Pid -> nat, top: Pid, proc: Proc, x: Pid)
    requires Acyclic(Links(v), rank) && Below(rank, rank(top), roots)
    requires x in ListedSet(UpdatedCopy(v, roots, rank, top, proc), rank, top, roots)
    ensures x in v && Alive(v[x], proc) && x in UpdatedCopy(v, roots, rank, top, proc)
    ensures var d := UpdatedCopy(v, roots, rank, top, proc)[x];
            && d.valid && proc(d.pid, d.tid) == Some(d.info)
            && d.pid == v[x].pid && d.tid == v[x].tid && d.children == v[x].children
  {
    hide Walk, WalkAll;
    ListedSetIsValid(UpdatedCopy(v, roots, rank, top, proc), roots, rank, top);
    UpdatedCopyRecords(v, ListedSet(v, rank, top, roots), Touched(v, roots, rank, top, proc), proc);
  }

  /** Of the updated copy, each total is the sum of what /proc gives now for the processes that are left. */
  lemma UpdatedCopyCarriesReadings(v: Records, roots: seq<Pid>, rank: Pid -> nat, up: Pid -> Pid, top: Pid, proc: Proc)
    requires SolverTree(v, roots, rank, up, top)
    ensures var after := UpdatedCopy(v, roots, rank, top, proc);
            && CarryReadings(after, proc, SolverSet(after, rank, top, roots))
            && Totals(after, SolverSet(after, rank, top, roots)) == Consumed(proc, SolverSet(after, rank, top, roots))
  {
    hide UpdatedCopy, ListedSet, Totals, Consumed;
    var after := UpdatedCopy(v, roots, rank, top, proc);
    forall x | x in SolverSet(after, rank, top, roots) ensures proc(x, NO_TASK) == Some(after[x].info) {
      ListedAfterUpdateIsFresh(v, roots, rank, top, proc, x);
      assert IsFiledUnder(v[x], x);
    }
    TotalsAreReadings(after, proc, SolverSet(after, rank, top, roots));
  }
}
