/** Walks over process trees: the order in which they are visited, what they reach and what they miss. */
module Forest {

  /** A pid_t. */
  datatype Pid = Pid(number: int)

  /** The processes a walk may enter, each with the children it goes on to, in that order. */
  type Graph = map<Pid, seq<Pid>>

  /** Children rank below their parent: the recursion measure of every walk. */
  ghost predicate Acyclic(g: Graph, rank: Pid -> nat) {
    forall p, c :: p in g && c in g[p] ==> rank(c) < rank(p)
  }

  /** The processes a recursive walk visits, each after its children. */
  ghost function Walk(g: Graph, rank: Pid -> nat, p: Pid): seq<Pid>
    requires Acyclic(g, rank)
    decreases rank(p) + 1, 0
  {
    if p !in g then [] else WalkAll(g, rank, rank(p), g[p]) + [p]
  }

  /** The walk over several processes, all ranked below `bound`, one after the other. */
  ghost function WalkAll(g: Graph, rank: Pid -> nat, bound: nat, ps: seq<Pid>): seq<Pid>
    requires Acyclic(g, rank) && Below(rank, bound, ps)
    decreases bound, |ps|
  {
    if ps == [] then []
    else
      var last := |ps| - 1;
      WalkAll(g, rank, bound, ps[..last]) + Walk(g, rank, ps[last])
  }

  ghost predicate Below(rank: Pid -> nat, bound: nat, ps: seq<Pid>) {
    forall p :: p in ps ==> rank(p) < bound
  }

  ghost function Elements(s: seq<Pid>): set<Pid> {
    set p | p in s
  }

  // ---- membership ----

  lemma {:induction false} InWalkAll(g: Graph, rank: Pid -> nat, bound: nat, ps: seq<Pid>, x: Pid)
    requires Acyclic(g, rank) && Below(rank, bound, ps)
    ensures x in WalkAll(g, rank, bound, ps) <==> exists p :: p in ps && x in Walk(g, rank, p)
  {
    if ps != [] {
      var last := |ps| - 1;
      InWalkAll(g, rank, bound, ps[..last], x);
      assert ps == ps[..last] + [ps[last]];
      if x in WalkAll(g, rank, bound, ps) {
        var p :| (p in ps[..last] || p == ps[last]) && x in Walk(g, rank, p);
        assert p in ps;
      }
      forall p | p in ps && x in Walk(g, rank, p) ensures x in WalkAll(g, rank, bound, ps) {
        assert p in ps[..last] || p == ps[last];
      }
    }
  }

  /** What a walk visits ranks no higher than its start, and the walk has entered it. */
  lemma {:induction false} WalkIsBelow(g: Graph, rank: Pid -> nat, p: Pid, x: Pid)
    requires Acyclic(g, rank) && x in Walk(g, rank, p)
    ensures x in g && p in g && rank(x) <= rank(p)
    ensures x != p ==> rank(x) < rank(p)
    decreases rank(p)
  {
    if x != p {
      InWalkAll(g, rank, rank(p), g[p], x);
      var c :| c in g[p] && x in Walk(g, rank, c);
      WalkIsBelow(g, rank, c, x);
    }
  }

  /** A walk does not stop short: the children of what it visits are visited. */
  lemma {:induction false} WalkExtends(g: Graph, rank: Pid -> nat, p: Pid, y: Pid, c: Pid)
    requires Acyclic(g, rank) && y in Walk(g, rank, p)
    requires c in g && y in g && c in g[y]
    ensures c in Walk(g, rank, p)
    decreases rank(p)
  {
    WalkIsBelow(g, rank, p, y);
    if y == p {
      assert c in Walk(g, rank, c);
      InWalkAll(g, rank, rank(p), g[p], c);
    } else {
      InWalkAll(g, rank, rank(p), g[p], y);
      var d :| d in g[p] && y in Walk(g, rank, d);
      WalkExtends(g, rank, d, y, c);
      InWalkAll(g, rank, rank(p), g[p], c);
    }
  }

  /** A chain of entered processes, each a child of the one before. */
  ghost predicate IsPath(g: Graph, path: seq<Pid>) {
    && path != []
    && (forall i :: 0 <= i < |path| ==> path[i] in g)
    && (forall i :: 0 < i < |path| ==> path[i] in g[path[i - 1]])
  }

  ghost predicate Leads(g: Graph, path: seq<Pid>, p: Pid, x: Pid) {
    IsPath(g, path) && path[0] == p && path[|path| - 1] == x
  }

  /** A walk visits exactly what a path leads to. */
  lemma WalkIsReachability(g: Graph, rank: Pid -> nat, p: Pid, x: Pid)
    requires Acyclic(g, rank)
    ensures x in Walk(g, rank, p) <==> exists path :: Leads(g, path, p, x)
  {
    if x in Walk(g, rank, p) {
      var path := PathOf(g, rank, p, x);
    }
    forall path | Leads(g, path, p, x) ensures x in Walk(g, rank, p) {
      PathIsWalked(g, rank, path);
    }
  }

  lemma {:induction false} PathOf(g: Graph, rank: Pid -> nat, p: Pid, x: Pid) returns (path: seq<Pid>)
    requires Acyclic(g, rank) && x in Walk(g, rank, p)
    ensures Leads(g, path, p, x)
    decreases rank(p)
  {
    if x == p {
      path := [p];
    } else {
      InWalkAll(g, rank, rank(p), g[p], x);
      var c :| c in g[p] && x in Walk(g, rank, c);
      var rest := PathOf(g, rank, c, x);
      path := [p] + rest;
    }
  }

  lemma {:induction false} PathIsWalked(g: Graph, rank: Pid -> nat, path: seq<Pid>)
    requires Acyclic(g, rank) && IsPath(g, path)
    ensures path[|path| - 1] in Walk(g, rank, path[0])
  {
    if |path| > 1 {
      var front := path[..|path| - 1];
      PathIsWalked(g, rank, front);
      WalkIsBelow(g, rank, path[0], front[|front| - 1]);
      WalkExtends(g, rank, path[0], front[|front| - 1], path[|path| - 1]);
    }
  }

  // ---- order ----

  /** Each visited process comes directly after the whole walk over its own descendants. */
  lemma {:induction false} SubtreeComesFirst(g: Graph, rank: Pid -> nat, p: Pid, x: Pid)
      returns (before: seq<Pid>, after: seq<Pid>)
    requires Acyclic(g, rank) && x in Walk(g, rank, p)
    ensures Walk(g, rank, p) == before + Walk(g, rank, x) + after
    decreases rank(p) + 1, 0
  {
    if x == p {
      before, after := [], [];
    } else {
      before, after := SubtreeComesFirstAll(g, rank, rank(p), g[p], x);
      after := after + [p];
    }
  }

  lemma {:induction false} SubtreeComesFirstAll(g: Graph, rank: Pid -> nat, bound: nat, ps: seq<Pid>, x: Pid)
      returns (before: seq<Pid>, after: seq<Pid>)
    requires Acyclic(g, rank) && Below(rank, bound, ps) && x in WalkAll(g, rank, bound, ps)
    ensures WalkAll(g, rank, bound, ps) == before + Walk(g, rank, x) + after
    decreases bound, |ps|
  {
    var last := |ps| - 1;
    if x in Walk(g, rank, ps[last]) {
      before, after := SubtreeComesFirst(g, rank, ps[last], x);
      before := WalkAll(g, rank, bound, ps[..last]) + before;
    } else {
      before, after := SubtreeComesFirstAll(g, rank, bound, ps[..last], x);
      after := after + Walk(g, rank, ps[last]);
    }
  }

  // ---- trees: one parent each ----

  ghost predicate NoDuplicates(s: seq<Pid>) {
    forall i, j :: 0 <= i < j < |s| ==> s[i] != s[j]
  }

  /** Each process is once in the list of its parent `up` and in no other list. */
  ghost predicate Tree(g: Graph, up: Pid -> Pid) {
    && (forall p :: p in g ==> NoDuplicates(g[p]))
    && (forall p, c :: p in g && c in g[p] ==> up(c) == p)
  }

  /** Going up from a visited process stays in the walk until its start. */
  lemma {:induction false} WalkGoesUp(g: Graph, rank: Pid -> nat, up: Pid -> Pid, p: Pid, x: Pid)
    requires Acyclic(g, rank) && Tree(g, up) && x in Walk(g, rank, p) && x != p
    ensures up(x) in Walk(g, rank, p) && up(x) in g && x in g[up(x)] && rank(x) < rank(up(x))
    decreases rank(p)
  {
    InWalkAll(g, rank, rank(p), g[p], x);
    var c :| c in g[p] && x in Walk(g, rank, c);
    if x != c {
      WalkGoesUp(g, rank, up, c, x);
      WalkIsBelow(g, rank, c, up(x));
      InWalkAll(g, rank, rank(p), g[p], up(x));
    }
  }

  /** Subtrees of siblings are disjoint. */
  lemma {:induction false} SiblingsAreDisjoint(g: Graph, rank: Pid -> nat, up: Pid -> Pid, a: Pid, b: Pid, x: Pid)
    requires Acyclic(g, rank) && Tree(g, up)
    requires a != b && up(a) == up(b) && rank(a) < rank(up(a)) && rank(b) < rank(up(b))
    requires x in Walk(g, rank, a)
    ensures x !in Walk(g, rank, b)
    decreases rank(a) - rank(x)
  {
    WalkIsBelow(g, rank, a, x);
    if x in Walk(g, rank, b) {
      if x == a {
        WalkGoesUp(g, rank, up, b, a);
        WalkIsBelow(g, rank, b, up(a));
      } else if x == b {
        WalkGoesUp(g, rank, up, a, b);
        WalkIsBelow(g, rank, a, up(b));
      } else {
        WalkGoesUp(g, rank, up, a, x);
        WalkGoesUp(g, rank, up, b, x);
        WalkIsBelow(g, rank, a, up(x));
        SiblingsAreDisjoint(g, rank, up, a, b, up(x));
      }
    }
  }

  /** Siblings listed once each. */
  ghost predicate Siblings(ps: seq<Pid>, rank: Pid -> nat, up: Pid -> Pid, parent: Pid) {
    NoDuplicates(ps) && forall p :: p in ps ==> up(p) == parent && rank(p) < rank(parent)
  }

  lemma AppendDisjoint(a: seq<Pid>, b: seq<Pid>)
    requires NoDuplicates(a) && NoDuplicates(b) && forall x :: x in a ==> x !in b
    ensures NoDuplicates(a + b)
  {
    var s := a + b;
    forall i, j | 0 <= i < j < |s| ensures s[i] != s[j] {
      if i < |a| <= j { assert s[i] in a && s[j] in b; }
    }
  }

  /** In a tree, a walk visits nothing twice. */
  lemma {:induction false} WalkHasNoDuplicates(g: Graph, rank: Pid -> nat, up: Pid -> Pid, p: Pid)
    requires Acyclic(g, rank) && Tree(g, up)
    ensures NoDuplicates(Walk(g, rank, p))
    decreases rank(p) + 1, 0
  {
    if p in g {
      WalkAllHasNoDuplicates(g, rank, up, p, g[p]);
      forall x | x in WalkAll(g, rank, rank(p), g[p]) ensures x != p {
        InWalkAll(g, rank, rank(p), g[p], x);
        var c :| c in g[p] && x in Walk(g, rank, c);
        WalkIsBelow(g, rank, c, x);
      }
      AppendDisjoint(WalkAll(g, rank, rank(p), g[p]), [p]);
    }
  }

  lemma {:induction false} WalkAllHasNoDuplicates(g: Graph, rank: Pid -> nat, up: Pid -> Pid, parent: Pid, ps: seq<Pid>)
    requires Acyclic(g, rank) && Tree(g, up) && Siblings(ps, rank, up, parent)
    ensures NoDuplicates(WalkAll(g, rank, rank(parent), ps))
    decreases rank(parent), |ps|
  {
    if ps != [] {
      var last := |ps| - 1;
      var front := ps[..last];
      WalkAllHasNoDuplicates(g, rank, up, parent, front);
      WalkHasNoDuplicates(g, rank, up, ps[last]);
      forall x | x in WalkAll(g, rank, rank(parent), front) ensures x !in Walk(g, rank, ps[last]) {
        InWalkAll(g, rank, rank(parent), front, x);
        var p :| p in front && x in Walk(g, rank, p);
        SiblingsAreDisjoint(g, rank, up, p, ps[last], x);
      }
      AppendDisjoint(WalkAll(g, rank, rank(parent), front), Walk(g, rank, ps[last]));
    }
  }

  /** A process comes after each of its proper descendants, wherever the two stand. */
  lemma DescendantsComeFirst(g: Graph, rank: Pid -> nat, up: Pid -> Pid, parent: Pid, ps: seq<Pid>, i: nat, j: nat)
    requires Acyclic(g, rank) && Tree(g, up) && Siblings(ps, rank, up, parent)
    requires i < |WalkAll(g, rank, rank(parent), ps)| && j < |WalkAll(g, rank, rank(parent), ps)|
    requires var s := WalkAll(g, rank, rank(parent), ps); s[i] in Walk(g, rank, s[j]) && s[i] != s[j]
    ensures i < j
  {
    var s := WalkAll(g, rank, rank(parent), ps);
    WalkAllHasNoDuplicates(g, rank, up, parent, ps);
    var before, after := SubtreeComesFirstAll(g, rank, rank(parent), ps, s[j]);
    var own := Walk(g, rank, s[j]);
    var k :| 0 <= k < |own| && own[k] == s[i];
    assert s[|before| + k] == s[i];
    assert s[|before| + |own| - 1] == s[j];
  }

  // ---- smaller graphs ----

  ghost predicate Subgraph(g': Graph, g: Graph) {
    forall p :: p in g' ==> p in g && g'[p] == g[p]
  }

  lemma {:induction false} SubgraphWalk(g': Graph, g: Graph, rank: Pid -> nat, p: Pid, x: Pid)
    requires Acyclic(g, rank) && Acyclic(g', rank) && Subgraph(g', g) && x in Walk(g', rank, p)
    ensures x in Walk(g, rank, p)
    decreases rank(p)
  {
    if x != p {
      InWalkAll(g', rank, rank(p), g'[p], x);
      var c :| c in g'[p] && x in Walk(g', rank, c);
      SubgraphWalk(g', g, rank, c, x);
      InWalkAll(g, rank, rank(p), g[p], x);
    }
  }

  /** Leaving out processes that a walk does not visit leaves the walk as it is. */
  lemma {:induction false} SameWalk(g': Graph, g: Graph, rank: Pid -> nat, p: Pid)
    requires Acyclic(g, rank) && Acyclic(g', rank) && Subgraph(g', g)
    requires forall x :: x in Walk(g, rank, p) ==> x in g'
    ensures Walk(g', rank, p) == Walk(g, rank, p)
    decreases rank(p) + 1, 0
  {
    if p in g {
      assert p in Walk(g, rank, p);
      forall x | x in WalkAll(g, rank, rank(p), g[p]) ensures x in g' {
        assert x in Walk(g, rank, p);
      }
      SameWalkAll(g', g, rank, rank(p), g[p]);
    }
  }

  lemma {:induction false} SameWalkAll(g': Graph, g: Graph, rank: Pid -> nat, bound: nat, ps: seq<Pid>)
    requires Acyclic(g, rank) && Acyclic(g', rank) && Subgraph(g', g) && Below(rank, bound, ps)
    requires forall x :: x in WalkAll(g, rank, bound, ps) ==> x in g'
    ensures WalkAll(g', rank, bound, ps) == WalkAll(g, rank, bound, ps)
    decreases bound, |ps|
  {
    if ps != [] {
      var last := |ps| - 1;
      SameWalkAll(g', g, rank, bound, ps[..last]);
      SameWalk(g', g, rank, ps[last]);
    }
  }

  /** A walk stays in a set that is closed under children. */
  lemma {:induction false} WalkStaysIn(g: Graph, rank: Pid -> nat, s: set<Pid>, p: Pid, x: Pid)
    requires Acyclic(g, rank) && x in Walk(g, rank, p) && p in s
    requires forall q, c :: q in g && q in s && c in g[q] ==> c in s
    ensures x in s
    decreases rank(p)
  {
    if x != p {
      InWalkAll(g, rank, rank(p), g[p], x);
      var c :| c in g[p] && x in Walk(g, rank, c);
      WalkStaysIn(g, rank, s, c, x);
    }
  }

  // ---- pruning ----

  /** The processes of g that are still alive. */
  ghost function Prune(g: Graph, alive: set<Pid>): Graph {
    map p | p in g && p in alive :: g[p]
  }

  lemma PruneIsAcyclic(g: Graph, rank: Pid -> nat, alive: set<Pid>)
    requires Acyclic(g, rank)
    ensures Acyclic(Prune(g, alive), rank)
  {}

  lemma {:induction false} DeadEndsCutOff(g: Graph, rank: Pid -> nat, up: Pid -> Pid, parent: Pid, alive: set<Pid>,
      r: Pid, d: Pid, x: Pid)
    requires Acyclic(g, rank) && Tree(g, up)
    requires up(r) == parent && rank(r) < rank(parent) && rank(d) < rank(parent)
    requires d !in alive && x in Walk(g, rank, d)
    ensures x !in Walk(Prune(g, alive), rank, r)
    decreases rank(d) - rank(x)
  {
    var g' := Prune(g, alive);
    WalkIsBelow(g, rank, d, x);
    if x in Walk(g', rank, r) {
      WalkIsBelow(g', rank, r, x);
      assert x != d;
      WalkGoesUp(g, rank, up, d, x);
      WalkIsBelow(g, rank, d, up(x));
      if x != r {
        WalkGoesUp(g', rank, up, r, x);
        DeadEndsCutOff(g, rank, up, parent, alive, r, d, up(x));
      }
    }
  }

  lemma {:induction false} NothingElseIsCutOff(g: Graph, rank: Pid -> nat, up: Pid -> Pid, alive: set<Pid>, r: Pid,
      x: Pid)
    requires Acyclic(g, rank) && Tree(g, up)
    requires x in Walk(g, rank, r)
    requires forall d :: d in Walk(g, rank, r) && x in Walk(g, rank, d) ==> d in alive
    ensures x in Walk(Prune(g, alive), rank, r)
    decreases rank(r) - rank(x)
  {
    WalkIsBelow(g, rank, r, x);
    assert x in Walk(g, rank, x);
    if x != r {
      WalkGoesUp(g, rank, up, r, x);
      WalkIsBelow(g, rank, r, up(x));
      forall d | d in Walk(g, rank, r) && up(x) in Walk(g, rank, d) ensures d in alive {
        WalkExtends(g, rank, d, up(x), x);
      }
      NothingElseIsCutOff(g, rank, up, alive, r, up(x));
      WalkIsBelow(Prune(g, alive), rank, r, up(x));
      WalkExtends(Prune(g, alive), rank, r, up(x), x);
    }
  }

  /** Walking the survivors of a forest visits what was visited before,
      minus the dead processes and all their descendants. */
  lemma PruneCutsOffSubtrees(g: Graph, rank: Pid -> nat, up: Pid -> Pid, parent: Pid, roots: seq<Pid>,
      alive: set<Pid>, x: Pid)
    requires Acyclic(g, rank) && Tree(g, up) && Siblings(roots, rank, up, parent)
    ensures x in WalkAll(Prune(g, alive), rank, rank(parent), roots)
            <==> && x in WalkAll(g, rank, rank(parent), roots)
                 && !exists d :: d in WalkAll(g, rank, rank(parent), roots) && d !in alive && x in Walk(g, rank, d)
  {
    var bound, g' := rank(parent), Prune(g, alive);
    InWalkAll(g', rank, bound, roots, x);
    InWalkAll(g, rank, bound, roots, x);
    if x in WalkAll(g', rank, bound, roots) {
      var r :| r in roots && x in Walk(g', rank, r);
      SubgraphWalk(g', g, rank, r, x);
      forall d | d in WalkAll(g, rank, bound, roots) && x in Walk(g, rank, d) ensures d in alive {
        InWalkAll(g, rank, bound, roots, d);
        var r' :| r' in roots && d in Walk(g, rank, r');
        WalkIsBelow(g, rank, r', d);
        if d !in alive { DeadEndsCutOff(g, rank, up, parent, alive, r, d, x); }
      }
    } else if x in WalkAll(g, rank, bound, roots) {
      var r :| r in roots && x in Walk(g, rank, r);
      if forall d :: d in Walk(g, rank, r) && x in Walk(g, rank, d) ==> d in alive {
        NothingElseIsCutOff(g, rank, up, alive, r, x);
      } else {
        var d :| d in Walk(g, rank, r) && x in Walk(g, rank, d) && d !in alive;
        InWalkAll(g, rank, bound, roots, d);
      }
    }
  }

  /** Erasing leaves makes a walk miss exactly those leaves. */
  lemma {:induction false} WalkWithoutLeaves(g: Graph, rank: Pid -> nat, gone: set<Pid>, p: Pid, x: Pid)
    requires Acyclic(g, rank) && forall d :: d in gone && d in g ==> g[d] == []
    ensures x in Walk(Prune(g, g.Keys - gone), rank, p) <==> x in Walk(g, rank, p) && x !in gone
    decreases rank(p)
  {
    var g' := Prune(g, g.Keys - gone);
    if p in g {
      InWalkAll(g, rank, rank(p), g[p], x);
      if p !in gone {
        InWalkAll(g', rank, rank(p), g[p], x);
        forall c | c in g[p] ensures x in Walk(g', rank, c) <==> x in Walk(g, rank, c) && x !in gone {
          WalkWithoutLeaves(g, rank, gone, c, x);
        }
      }
    }
  }
}
