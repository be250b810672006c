/** Which push numbers an exponentially thinning history of two-slot cells holds after n pushes. */
module Thinning {
  import opened Arithmetic

  /** Elements that a cell has passed on once c elements have arrived in it: every second one, kept back while it is
      the older of the last two. */
  function Promoted(c: nat): nat {
    if c == 0 then 0 else (c - 1) / 2
  }

  /** Elements that have arrived in cell k after n pushes. */
  function Arrivals(n: nat, k: nat): nat {
    if k == 0 then n else Promoted(Arrivals(n, k - 1))
  }

  /** Elements a cell holds after c arrivals. */
  function Held(c: nat): nat {
    c - 2 * Promoted(c)
  }

  /** The push number of arrival j (from 0) in cell k. */
  function Number(k: nat, j: nat): nat {
    if k == 0 then j else Number(k - 1, 2 * j)
  }

  function Pow2(k: nat): (p: nat)
    ensures p > 0
  {
    if k == 0 then 1 else 2 * Pow2(k - 1)
  }

  /** Loop turns that n pushes take in a history of K cells: one for each arrival. */
  function Turns(n: nat, K: nat): nat {
    if K == 0 then 0 else Turns(n, K - 1) + Arrivals(n, K - 1)
  }

  // ---- closed forms ----

  lemma HalfOfQuotient(x: nat, a: nat)
    requires a > 0
    ensures x / a / 2 == x / (2 * a)
  {
    var q := x / a;
    var r := x % a;
    assert x == q * a + r;
    var h, b := q / 2, q % 2;
    assert q * a == h * (2 * a) + b * a;
    assert b * a + r < 2 * a by { assert b == 0 || b == 1; }
    QuotientRemainder(x, h, b * a + r, 2 * a);
  }

  /** Cell k receives floor((n+1)/2^k) - 1 elements, or none. */
  lemma {:induction false} ArrivalsClosedForm(n: nat, k: nat)
    ensures Arrivals(n, k) == if (n + 1) / Pow2(k) >= 1 then (n + 1) / Pow2(k) - 1 else 0
  {
    if k > 0 {
      ArrivalsClosedForm(n, k - 1);
      HalfOfQuotient(n + 1, Pow2(k - 1));
    }
  }

  /** Arrival j of cell k is push number j * 2^k. */
  lemma {:induction false} NumberClosedForm(k: nat, j: nat)
    ensures Number(k, j) == j * Pow2(k)
  {
    if k > 0 {
      NumberClosedForm(k - 1, 2 * j);
      assert 2 * j * Pow2(k - 1) == j * (2 * Pow2(k - 1));
    }
  }

  lemma {:induction false} NumberIncreases(k: nat, i: nat, j: nat)
    requires i < j
    ensures Number(k, i) < Number(k, j)
  {
    if k > 0 { NumberIncreases(k - 1, 2 * i, 2 * j); }
  }

  /** Only elements already pushed arrive, and fewer arrive in each further cell. */
  lemma {:induction false} ArrivalsArePast(n: nat, k: nat)
    ensures Arrivals(n, k) <= n
    ensures Arrivals(n, k) > 0 ==> Number(k, Arrivals(n, k) - 1) < n
  {
    if k > 0 {
      ArrivalsArePast(n, k - 1);
      if Arrivals(n, k) > 0 {
        NumberIncreases(k - 1, 2 * (Arrivals(n, k) - 1), Arrivals(n, k - 1) - 1);
      }
    }
  }

  /** Occupied cells form a prefix. */
  lemma {:induction false} EmptyStaysEmpty(n: nat, i: nat, k: nat)
    requires i <= k && Arrivals(n, i) == 0
    ensures Arrivals(n, k) == 0
  {
    if i < k { EmptyStaysEmpty(n, i, k - 1); }
  }

  // ---- one more push ----

  /** Once a cell's arrivals are unchanged by a push, so are those of every further cell. */
  lemma {:induction false} UnchangedFrom(n: nat, i: nat, k: nat)
    requires i <= k && Arrivals(n + 1, i) == Arrivals(n, i)
    ensures Arrivals(n + 1, k) == Arrivals(n, k)
  {
    if i < k { UnchangedFrom(n, i, k - 1); }
  }

  /** An arrival makes a full cell pass on its older element; a cell with room passes nothing on. */
  lemma ArrivalPromotes(n: nat, k: nat)
    requires Arrivals(n + 1, k) == Arrivals(n, k) + 1
    ensures Arrivals(n + 1, k + 1) == Arrivals(n, k + 1) + if Held(Arrivals(n, k)) == 2 then 1 else 0
    ensures Held(Arrivals(n + 1, k)) == if Held(Arrivals(n, k)) == 2 then 1 else Held(Arrivals(n, k)) + 1
  {}

  /** A push adds an arrival to the cells before some cell, and to no other. */
  lemma {:induction false} ArrivalsGrowByOne(n: nat, k: nat)
    ensures Arrivals(n + 1, k) == Arrivals(n, k) || Arrivals(n + 1, k) == Arrivals(n, k) + 1
  {
    if k > 0 { ArrivalsGrowByOne(n, k - 1); }
  }

  lemma {:induction false} TurnsGrow(n: nat, K: nat, j: nat)
    requires 0 < j <= K
    requires Arrivals(n + 1, j - 1) == Arrivals(n, j - 1) + 1
    requires j < K ==> Arrivals(n + 1, j) == Arrivals(n, j)
    ensures Turns(n + 1, K) == Turns(n, K) + j
  {
    if j < K {
      UnchangedFrom(n, j, K - 1);
      if j == K - 1 {
        TurnsGrow(n, K - 1, j);
      } else {
        UnchangedFrom(n, j, K - 2);
        TurnsGrow(n, K - 1, j);
      }
    } else if K > 1 {
      ArrivalsGrowByOne(n, K - 2);
      TurnsGrow(n, K - 1, K - 1);
    }
  }

  // ---- what is retained ----

  /** The push number in the first slot of cell k. */
  function Oldest(n: nat, k: nat): nat {
    Number(k, 2 * Promoted(Arrivals(n, k)))
  }

  /** The push number in the last occupied slot of cell k. */
  function Youngest(n: nat, k: nat): nat
    requires Arrivals(n, k) > 0
  {
    Number(k, Arrivals(n, k) - 1)
  }

  lemma SlotsAreOrdered(n: nat, k: nat)
    requires Arrivals(n, k) > 0
    ensures Oldest(n, k) <= Youngest(n, k) < n
  {
    var c := Arrivals(n, k);
    if 2 * Promoted(c) < c - 1 { NumberIncreases(k, 2 * Promoted(c), c - 1); }
    ArrivalsArePast(n, k);
  }

  /** Everything in cell k was pushed before everything in a nearer cell i. */
  lemma {:induction false} FurtherCellsAreOlder(n: nat, i: nat, k: nat)
    requires i < k && Arrivals(n, k) > 0
    ensures Arrivals(n, i) > 0 && Youngest(n, k) < Oldest(n, i)
  {
    var c := Arrivals(n, k - 1);
    NumberIncreases(k - 1, 2 * (Promoted(c) - 1), 2 * Promoted(c));
    if i < k - 1 {
      FurtherCellsAreOlder(n, i, k - 1);
      SlotsAreOrdered(n, k - 1);
    }
  }

  /** The oldest retained push number is ((n+1)/2^K - 1) * 2^K, or 0: it is the number of the next element
      that the last cell will pass on, and no occupied slot holds an older one. */
  lemma {:induction false} OldestRetained(n: nat, K: nat, k: nat)
    requires k < K && Arrivals(n, k) > 0
    ensures Number(K, Arrivals(n, K)) <= Oldest(n, k)
    ensures (k + 1 == K || Arrivals(n, k + 1) == 0) ==> Oldest(n, k) == Number(K, Arrivals(n, K))
    decreases K - k
  {
    if k + 1 == K {
      assert Oldest(n, k) == Number(K, Arrivals(n, K));
    } else if Arrivals(n, k + 1) == 0 {
      EmptyStaysEmpty(n, k + 1, K);
      NumberClosedForm(K, 0);
      NumberClosedForm(k, 0);
    } else {
      OldestRetained(n, K, k + 1);
      SlotsAreOrdered(n, k + 1);
      FurtherCellsAreOlder(n, k, k + 1);
    }
  }

  /** The first sample is retained exactly during the first 2^(K+1) - 2 pushes. */
  lemma FirstSampleSurvives(n: nat, K: nat)
    requires n > 0 && K > 0
    ensures (exists k :: 0 <= k < K && Arrivals(n, k) > 0 && Oldest(n, k) == 0) <==> n <= 2 * Pow2(K) - 2
  {
    OldestClosedForm(n, K);
    var k := LastOccupied(n, K);
    OldestRetained(n, K, k);
    if n > 2 * Pow2(K) - 2 {
      forall k | 0 <= k < K && Arrivals(n, k) > 0 ensures Oldest(n, k) > 0 {
        OldestRetained(n, K, k);
      }
    }
  }

  lemma OldestClosedForm(n: nat, K: nat)
    ensures n + 1 >= Pow2(K) ==> Number(K, Arrivals(n, K)) == n + 1 - (n + 1) % Pow2(K) - Pow2(K)
    ensures Number(K, Arrivals(n, K)) == 0 <==> n <= 2 * Pow2(K) - 2
  {
    var p := Pow2(K);
    QuotientBounds(n + 1, p);
    ArrivalsClosedForm(n, K);
    NumberClosedForm(K, Arrivals(n, K));
    assert n + 1 < p ==> 0 * p == 0;
  }

  lemma {:induction false} LastOccupied(n: nat, K: nat) returns (k: nat)
    requires n > 0 && K > 0
    ensures k < K && Arrivals(n, k) > 0 && (k + 1 == K || Arrivals(n, k + 1) == 0)
  {
    k := K - 1;
    if Arrivals(n, k) == 0 {
      k := LastOccupied(n, K - 1);
    }
  }

  /** From push 2^K - 1 on, the oldest retained sample is 2^K - 2 + (n+1) mod 2^K pushes older than the newest:
      always between 2^K - 2 and 2^(K+1) - 3. */
  lemma HistoryReach(n: nat, K: nat)
    requires K > 0 && n >= Pow2(K) - 1 && n > 0
    ensures n - 1 - Oldest(n, K - 1) == Pow2(K) - 2 + (n + 1) % Pow2(K)
    ensures Pow2(K) - 2 <= n - 1 - Oldest(n, K - 1) <= 2 * Pow2(K) - 3
  {
    OldestClosedForm(n, K);
    assert Oldest(n, K - 1) == Number(K, Arrivals(n, K));
  }

  lemma LastCellIsUsed(n: nat, K: nat)
    requires K > 0 && n >= Pow2(K) - 1
    ensures Arrivals(n, K - 1) > 0
  {
    ArrivalsClosedForm(n, K - 1);
    QuotientBounds(n + 1, Pow2(K - 1));
  }

  /** n >= 1 pushes cost fewer than 2n loop turns, however many cells there are. */
  lemma TurnsAreLinear(n: nat, K: nat)
    requires n > 0
    ensures Turns(n, K) < 2 * n
  {
    if K == 0 {
    } else {
      TurnsHalve(n, K - 1);
    }
  }

  lemma {:induction false} TurnsHalve(n: nat, k: nat)
    requires n > 0
    ensures Arrivals(n, k) > 0 ==> Turns(n, k + 1) + Arrivals(n, k) <= 2 * n
    ensures Turns(n, k + 1) < 2 * n
  {
    if k == 0 {
      assert Turns(n, 1) == n;
    } else {
      TurnsHalve(n, k - 1);
    }
  }
}

/** The history of process trees. */
module ProcessHistory {
  import opened Thinning

  /** A process tree, of which the history only looks at the elapsed time. */
  datatype Sample = Sample(id: nat, elapsed: real)

  /** A cell: its item count and its two slots. */
  datatype Cell = Cell(items: int, first: Sample, second: Sample)

  /** What cell k shows once the first n elements of `pushed` are in. */
  ghost predicate CellHolds(cell: Cell, pushed: seq<Sample>, n: nat, k: nat)
    requires n <= |pushed|
  {
    var c := Arrivals(n, k);
    && cell.items == Held(c)
    && (c > 0 ==> (SlotsAreOrdered(n, k); cell.first == pushed[Oldest(n, k)]))
    && (cell.items == 2 ==> (SlotsAreOrdered(n, k); cell.second == pushed[Youngest(n, k)]))
  }

  ghost function Content(cell: Cell): multiset<Sample> {
    if cell.items <= 0 then multiset{}
    else if cell.items == 1 then multiset{cell.first}
    else multiset{cell.first, cell.second}
  }

  /** The elements in occupied slots. */
  ghost function Live(cells: seq<Cell>): multiset<Sample> {
    if cells == [] then multiset{} else Live(cells[..|cells| - 1]) + Content(cells[|cells| - 1])
  }

  /** Rewriting one cell changes the live elements by that cell only. */
  lemma {:induction false} LiveUpdate(cells: seq<Cell>, c: nat, cell: Cell)
    requires c < |cells|
    ensures Live(cells[c := cell]) + Content(cells[c]) == Live(cells) + Content(cell)
  {
    hide Content;
    var last := |cells| - 1;
    var front, cells' := cells[..last], cells[c := cell];
    if c == last {
      assert cells'[..last] == front;
    } else {
      assert cells'[..last] == front[c := cell];
      LiveUpdate(front, c, cell);
      Swap(Live(front[c := cell]), Live(front), Content(cells[c]), Content(cell), Content(cells[last]));
    }
  }

  lemma Swap(a: multiset<Sample>, b: multiset<Sample>, x: multiset<Sample>, y: multiset<Sample>, z: multiset<Sample>)
    requires a + x == b + y
    ensures a + z + x == b + z + y
  {
    forall e ensures (a + z + x)[e] == (b + z + y)[e] {
      assert (a + x)[e] == (b + y)[e];
    }
  }

  /** The first cells up to an empty one hold every live element. */
  lemma {:induction false} LiveInPrefix(cells: seq<Cell>, c: nat)
    requires c <= |cells|
    requires forall k :: c <= k < |cells| ==> cells[k].items == 0
    ensures Live(cells) == Live(cells[..c])
  {
    if c == |cells| {
      assert cells[..c] == cells;
    } else {
      LiveInPrefix(cells[..|cells| - 1], c);
      assert cells[..|cells| - 1][..c] == cells[..c];
    }
  }

  lemma LiveSplit(cells: seq<Cell>, k: nat)
    requires k < |cells|
    ensures Live(cells[..k + 1]) == Live(cells[..k]) + Content(cells[k])
  {
    assert cells[..k + 1][..k] == cells[..k];
  }

  lemma NewCells(cells: seq<Cell>)
    requires forall k :: 0 <= k < |cells| ==> cells[k].items == 0
    ensures Holds(cells, [], 0) && Live(cells) == multiset{} && Turns(0, |cells|) == 0
  {
    forall k | 0 <= k < |cells| ensures CellHolds(cells[k], [], 0, k) {
      ArrivalsArePast(0, k);
    }
    LiveInPrefix(cells, 0);
    TurnsOfNone(|cells|);
  }

  /** One more element in a cell: a full cell starts over. */
  function Put(cell: Cell, elem: Sample): Cell {
    if cell.items == 1 then cell.(items := 2, second := elem) else cell.(items := 1, first := elem)
  }

  lemma PutContent(cell: Cell, elem: Sample)
    requires 0 <= cell.items <= 2
    ensures cell.items < 2 ==> Content(Put(cell, elem)) == Content(cell) + multiset{elem}
    ensures cell.items == 2
            ==> Content(Put(cell, elem)) + multiset{cell.first} + multiset{cell.second}
                == Content(cell) + multiset{elem}
  {}

  /** Every cell is as it should be after m pushes. */
  ghost predicate Holds(cells: seq<Cell>, pushed: seq<Sample>, m: nat)
    requires m <= |pushed|
  {
    forall k :: 0 <= k < |cells| ==> CellHolds(cells[k], pushed, m, k)
  }

  /** In the middle of push number n: the cells before `cell` are done, elem is about to arrive in `cell`. */
  ghost predicate Midway(cells: seq<Cell>, all: seq<Sample>, n: nat, cell: nat, elem: Sample) {
    && |all| == n + 1
    && (forall k :: 0 <= k < cell && k < |cells| ==> CellHolds(cells[k], all, n + 1, k))
    && (forall k :: cell <= k < |cells| ==> CellHolds(cells[k], all, n, k))
    && Arrivals(n + 1, cell) == Arrivals(n, cell) + 1
    && Number(cell, Arrivals(n, cell)) <= n
    && elem == all[Number(cell, Arrivals(n, cell))]
  }

  /** What the loop of push keeps: elem, as long as it is on the move, is the one element neither live nor dropped. */
  ghost predicate Pushing(cells: seq<Cell>, all: seq<Sample>, n: nat, cell: nat, elem: Sample, move: bool,
                          dropped: multiset<Sample>, turns: nat) {
    && |all| == n + 1
    && cell <= |cells|
    && if move then
         && Midway(cells, all, n, cell, elem)
         && Live(cells) + dropped + multiset{elem} == multiset(all)
         && turns == Turns(n, |cells|) + cell
       else
         && Holds(cells, all, n + 1)
         && Live(cells) + dropped == multiset(all)
         && turns == Turns(n + 1, |cells|)
  }

  lemma Stored(live: multiset<Sample>, live': multiset<Sample>, cell: multiset<Sample>, cell': multiset<Sample>,
               elem: Sample, dropped: multiset<Sample>, all: multiset<Sample>)
    requires live' + cell == live + cell' && cell' == cell + multiset{elem}
    requires live + dropped + multiset{elem} == all
    ensures live' + dropped == all
  {
    forall x ensures (live' + dropped)[x] == all[x] {
      assert (live' + cell)[x] == (live + cell')[x];
      assert cell'[x] == (cell + multiset{elem})[x];
      assert (live + dropped + multiset{elem})[x] == all[x];
    }
  }

  lemma Exchanged(live: multiset<Sample>, live': multiset<Sample>, cell: multiset<Sample>, cell': multiset<Sample>,
                  elem: Sample, first: Sample, second: Sample, dropped: multiset<Sample>, all: multiset<Sample>)
    requires live' + cell == live + cell' && cell' + multiset{first} + multiset{second} == cell + multiset{elem}
    requires live + dropped + multiset{elem} == all
    ensures live' + (dropped + multiset{second}) + multiset{first} == all
  {
    forall x ensures (live' + (dropped + multiset{second}) + multiset{first})[x] == all[x] {
      assert (live' + cell)[x] == (live + cell')[x];
      assert (cell' + multiset{first} + multiset{second})[x] == (cell + multiset{elem})[x];
      assert (live + dropped + multiset{elem})[x] == all[x];
    }
  }

  lemma PushBegins(cells: seq<Cell>, pushed: seq<Sample>, sample: Sample, dropped: multiset<Sample>, turns: nat)
    requires Holds(cells, pushed, |pushed|)
    requires Live(cells) + dropped == multiset(pushed) && turns == Turns(|pushed|, |cells|)
    ensures Pushing(cells, pushed + [sample], |pushed|, 0, sample, true, dropped, turns)
  {
    forall k | 0 <= k < |cells| ensures CellHolds(cells[k], pushed + [sample], |pushed|, k) {
      assert CellHolds(cells[k], pushed, |pushed|, k);
      if Arrivals(|pushed|, k) > 0 { SlotsAreOrdered(|pushed|, k); }
    }
  }

  /** The cell that receives elem is right afterwards. */
  lemma CellReceives(cell: Cell, all: seq<Sample>, n: nat, k: nat, elem: Sample)
    requires |all| == n + 1 && CellHolds(cell, all, n, k)
    requires Arrivals(n + 1, k) == Arrivals(n, k) + 1
    requires Number(k, Arrivals(n, k)) <= n && elem == all[Number(k, Arrivals(n, k))]
    ensures CellHolds(Put(cell, elem), all, n + 1, k)
  {
    ArrivalPromotes(n, k);
    SlotsAreOrdered(n + 1, k);
    if Arrivals(n, k) > 0 { SlotsAreOrdered(n, k); }
  }

  lemma CellsSettle(cells: seq<Cell>, all: seq<Sample>, n: nat, cell: nat, elem: Sample)
    requires Midway(cells, all, n, cell, elem) && cell < |cells| && cells[cell].items < 2
    ensures Holds(cells[cell := Put(cells[cell], elem)], all, n + 1)
    ensures Arrivals(n + 1, cell + 1) == Arrivals(n, cell + 1)
  {
    var cells' := cells[cell := Put(cells[cell], elem)];
    CellReceives(cells[cell], all, n, cell, elem);
    ArrivalPromotes(n, cell);
    forall k | 0 <= k < |cells| ensures CellHolds(cells'[k], all, n + 1, k) {
      if k > cell {
        UnchangedFrom(n, cell + 1, k);
        if Arrivals(n, k) > 0 { SlotsAreOrdered(n, k); SlotsAreOrdered(n + 1, k); }
      }
    }
  }

  /** A cell with room ends the push. */
  lemma PushStops(cells: seq<Cell>, all: seq<Sample>, n: nat, cell: nat, elem: Sample, dropped: multiset<Sample>,
      turns: nat)
    requires Pushing(cells, all, n, cell, elem, true, dropped, turns)
    requires cell < |cells| && cells[cell].items < 2
    ensures 0 <= cells[cell].items
    ensures Pushing(cells[cell := Put(cells[cell], elem)], all, n, cell, elem, false, dropped, turns + 1)
  {
    CellsSettle(cells, all, n, cell, elem);
    TurnsGrow(n, |cells|, cell + 1);
    assert CellHolds(cells[cell], all, n, cell);
    PutContent(cells[cell], elem);
    LiveUpdate(cells, cell, Put(cells[cell], elem));
    Stored(Live(cells), Live(cells[cell := Put(cells[cell], elem)]), Content(cells[cell]),
           Content(Put(cells[cell], elem)), elem, dropped, multiset(all));
  }

  lemma CellPassesOn(cells: seq<Cell>, all: seq<Sample>, n: nat, cell: nat, elem: Sample)
    requires Midway(cells, all, n, cell, elem) && cell < |cells| && cells[cell].items >= 2
    ensures cells[cell].items == 2
    ensures Midway(cells[cell := Put(cells[cell], elem)], all, n, cell + 1, cells[cell].first)
  {
    CellReceives(cells[cell], all, n, cell, elem);
    ArrivalPromotes(n, cell);
    SlotsAreOrdered(n, cell);
  }

  /** A full cell hands its older element on and drops the newer one. */
  lemma PushMovesOn(cells: seq<Cell>, all: seq<Sample>, n: nat, cell: nat, elem: Sample, dropped: multiset<Sample>,
      turns: nat)
    requires Pushing(cells, all, n, cell, elem, true, dropped, turns)
    requires cell < |cells| && cells[cell].items >= 2
    ensures cells[cell].items == 2
    ensures Pushing(cells[cell := Put(cells[cell], elem)], all, n, cell + 1, cells[cell].first, true,
                    dropped + multiset{cells[cell].second}, turns + 1)
  {
    CellPassesOn(cells, all, n, cell, elem);
    PutContent(cells[cell], elem);
    LiveUpdate(cells, cell, Put(cells[cell], elem));
    Exchanged(Live(cells), Live(cells[cell := Put(cells[cell], elem)]), Content(cells[cell]),
              Content(Put(cells[cell], elem)), elem, cells[cell].first, cells[cell].second, dropped, multiset(all));
  }

  /** What leaves the last cell is dropped. */
  lemma PushRunsOut(cells: seq<Cell>, all: seq<Sample>, n: nat, elem: Sample, dropped: multiset<Sample>, turns: nat)
    requires |cells| > 0 && Pushing(cells, all, n, |cells|, elem, true, dropped, turns)
    ensures Pushing(cells, all, n, |cells|, elem, false, dropped + multiset{elem}, turns)
  {
    ArrivalsGrowByOne(n, |cells| - 1);
    TurnsGrow(n, |cells|, |cells|);
  }

  // ---- what becomes of an element ----

  /** The newest element sits in the last occupied slot of the first cell. */
  lemma NewestIsLive(cells: seq<Cell>, pushed: seq<Sample>)
    requires |cells| > 0 && pushed != [] && Holds(cells, pushed, |pushed|)
    ensures var newest := pushed[|pushed| - 1];
            && cells[0].items in {1, 2}
            && newest == (if cells[0].items == 1 then cells[0].first else cells[0].second)
            && newest in Live(cells)
  {
    assert CellHolds(cells[0], pushed, |pushed|, 0);
    InLive(cells, 0);
  }

  lemma {:induction false} InLive(cells: seq<Cell>, k: nat)
    requires k < |cells|
    ensures Content(cells[k]) <= Live(cells)
  {
    if k < |cells| - 1 { InLive(cells[..|cells| - 1], k); }
  }

  lemma {:induction false} InSomeCell(cells: seq<Cell>, x: Sample) returns (k: nat)
    requires x in Live(cells)
    ensures k < |cells| && x in Content(cells[k])
  {
    var last := |cells| - 1;
    if x in Content(cells[last]) {
      k := last;
    } else {
      k := InSomeCell(cells[..last], x);
    }
  }

  ghost predicate Distinct(pushed: seq<Sample>) {
    forall i, j :: 0 <= i < j < |pushed| ==> pushed[i] != pushed[j]
  }

  /** Cell k shows push number j. */
  predicate Shows(n: nat, k: nat, j: nat) {
    Arrivals(n, k) > 0 && (j == Oldest(n, k) || j == Youngest(n, k))
  }

  /** An element is live exactly if some cell shows its push number. */
  lemma {:induction false} LiveIffShown(cells: seq<Cell>, pushed: seq<Sample>, j: nat)
    requires Holds(cells, pushed, |pushed|) && Distinct(pushed) && j < |pushed|
    ensures pushed[j] in Live(cells) <==> exists k :: 0 <= k < |cells| && Shows(|pushed|, k, j)
  {
    hide Arrivals, Oldest, Youngest, Live;
    var n := |pushed|;
    if pushed[j] in Live(cells) {
      var k := InSomeCell(cells, pushed[j]);
      assert CellHolds(cells[k], pushed, n, k);
      SlotsAreOrdered(n, k);
      assert Shows(n, k, j);
    }
    forall k | 0 <= k < |cells| && Shows(n, k, j) ensures pushed[j] in Live(cells) {
      assert CellHolds(cells[k], pushed, n, k);
      OnlyOneSlot(n, k);
      InLive(cells, k);
    }
  }

  lemma OnlyOneSlot(n: nat, k: nat)
    requires Arrivals(n, k) > 0
    ensures 1 <= Held(Arrivals(n, k)) <= 2
    ensures Held(Arrivals(n, k)) == 1 ==> Youngest(n, k) == Oldest(n, k)
  {}

  /** An element pushed once is in exactly one occupied slot, or was dropped exactly once; the newest is not dropped. */
  lemma LiveOrDroppedOnce(cells: seq<Cell>, pushed: seq<Sample>, dropped: multiset<Sample>, x: Sample)
    requires |cells| > 0 && pushed != [] && Holds(cells, pushed, |pushed|)
    requires Live(cells) + dropped == multiset(pushed)
    requires multiset(pushed)[x] == 1
    ensures (Live(cells)[x] == 1 && dropped[x] == 0) || (Live(cells)[x] == 0 && dropped[x] == 1)
    ensures x == pushed[|pushed| - 1] ==> x !in dropped
  {
    assert (Live(cells) + dropped)[x] == 1;
    NewestIsLive(cells, pushed);
  }

  /** Where the destructor stops, no further cell holds anything. */
  lemma EmptyCellEndsHistory(cells: seq<Cell>, pushed: seq<Sample>, c: nat)
    requires Holds(cells, pushed, |pushed|) && c <= |cells|
    requires c < |cells| ==> cells[c].items <= 0
    ensures Live(cells) == Live(cells[..c])
  {
    forall k | c <= k < |cells| ensures cells[k].items == 0 {
      assert CellHolds(cells[c], pushed, |pushed|, c) && CellHolds(cells[k], pushed, |pushed|, k);
      EmptyStaysEmpty(|pushed|, c, k);
    }
    LiveInPrefix(cells, c);
  }

  // ---- what is printed ----

  /** The push numbers dumpHistory prints of cells lo to K-1, the furthest cell first. */
  function OldNumbers(pushed: seq<Sample>, lo: nat, K: nat, limit: real): (numbers: seq<nat>)
    requires lo <= K
    ensures forall i :: 0 <= i < |numbers| ==> numbers[i] < |pushed|
    decreases K - lo
  {
    if lo == K then []
    else
      var rest := OldNumbers(pushed, lo + 1, K, limit);
      if Arrivals(|pushed|, lo) == 0 then rest
      else
        SlotsAreOrdered(|pushed|, lo);
        var oldest := Oldest(|pushed|, lo);
        if pushed[oldest].elapsed <= limit then rest else rest + [oldest]
  }

  /** The push numbers dumpHistory prints, in that order. */
  function DumpNumbers(pushed: seq<Sample>, K: nat, limit: real): (numbers: seq<nat>)
    ensures forall i :: 0 <= i < |numbers| ==> numbers[i] < |pushed|
  {
    OldNumbers(pushed, 0, K, limit) + if Held(|pushed|) == 2 then [|pushed| - 1] else []
  }

  ghost predicate ShownInCell(pushed: seq<Sample>, k: nat, limit: real, x: nat) {
    && x < |pushed|
    && Arrivals(|pushed|, k) > 0
    && x == Oldest(|pushed|, k)
    && pushed[x].elapsed > limit
  }

  lemma {:induction false} OldNumbersMembers(pushed: seq<Sample>, lo: nat, K: nat, limit: real, x: nat)
    requires lo <= K
    ensures x in OldNumbers(pushed, lo, K, limit) <==> exists k: nat :: lo <= k < K && ShownInCell(pushed, k, limit, x)
    decreases K - lo
  {
    if lo < K {
      OldNumbersMembers(pushed, lo + 1, K, limit, x);
      if Arrivals(|pushed|, lo) > 0 { SlotsAreOrdered(|pushed|, lo); }
      assert x in OldNumbers(pushed, lo, K, limit)
             <==> x in OldNumbers(pushed, lo + 1, K, limit) || ShownInCell(pushed, lo, limit, x);
    }
  }

  ghost predicate Increasing(numbers: seq<nat>) {
    forall i, j :: 0 <= i < j < |numbers| ==> numbers[i] < numbers[j]
  }

  lemma IncreasingAppend(numbers: seq<nat>, x: nat)
    requires Increasing(numbers) && forall y :: y in numbers ==> y < x
    ensures Increasing(numbers + [x])
  {
    forall i, j | 0 <= i < j < |numbers| + 1 ensures (numbers + [x])[i] < (numbers + [x])[j] {
      if j == |numbers| { assert numbers[i] in numbers; }
    }
  }

  lemma {:induction false} OldNumbersIncrease(pushed: seq<Sample>, lo: nat, K: nat, limit: real)
    requires lo <= K
    ensures Increasing(OldNumbers(pushed, lo, K, limit))
    decreases K - lo
  {
    if lo < K {
      OldNumbersIncrease(pushed, lo + 1, K, limit);
      var rest := OldNumbers(pushed, lo + 1, K, limit);
      forall x | x in rest && Arrivals(|pushed|, lo) > 0 ensures x < Oldest(|pushed|, lo) {
        OldNumbersMembers(pushed, lo + 1, K, limit, x);
        var k: nat :| lo + 1 <= k < K && ShownInCell(pushed, k, limit, x);
        SlotsAreOrdered(|pushed|, k);
        FurtherCellsAreOlder(|pushed|, lo, k);
      }
      if Arrivals(|pushed|, lo) > 0 { IncreasingAppend(rest, Oldest(|pushed|, lo)); }
    }
  }

  /** The samples are printed in strictly increasing push order; they are the older elements of the cells that are
      later than the limit, and the newest one when it is the second of its cell. */
  lemma DumpIsChronological(pushed: seq<Sample>, K: nat, limit: real)
    ensures Increasing(DumpNumbers(pushed, K, limit))
    ensures forall x: nat :: x in DumpNumbers(pushed, K, limit)
                             <==> (exists k: nat :: k < K && ShownInCell(pushed, k, limit, x))
                                  || (Held(|pushed|) == 2 && x == |pushed| - 1)
  {
    OldNumbersIncrease(pushed, 0, K, limit);
    var older := OldNumbers(pushed, 0, K, limit);
    forall x: nat ensures x in older <==> exists k: nat :: k < K && ShownInCell(pushed, k, limit, x) {
      OldNumbersMembers(pushed, 0, K, limit, x);
    }
    forall x | x in older && Held(|pushed|) == 2 ensures x < |pushed| - 1 {
      var k: nat :| k < K && ShownInCell(pushed, k, limit, x);
      SlotsAreOrdered(|pushed|, k);
      if k > 0 { FurtherCellsAreOlder(|pushed|, 0, k); }
    }
    if Held(|pushed|) == 2 { IncreasingAppend(older, |pushed| - 1); }
  }

  class ProcessHistory {
    const nbcell: nat
    const nbitem: array<int>
    const history: array<Sample>

    ghost var cells: seq<Cell>
    ghost var pushed: seq<Sample> // every element ever pushed
    ghost var dropped: multiset<Sample> // every element deleted, as often as it was
    ghost var turns: nat // turns of push's loop so far

    ghost predicate Shape() {
      nbcell >= 1 && nbitem.Length == nbcell && history.Length == 2 * nbcell
    }

    /** The two arrays seen as cells. */
    ghost predicate Linked()
      reads this, nbitem, history
    {
      && Shape()
      && |cells| == nbcell
      && forall k :: 0 <= k < nbcell ==> cells[k] == Cell(nbitem[k], history[2 * k], history[2 * k + 1])
    }

    ghost predicate Valid()
      reads this, nbitem, history
    {
      && Linked()
      && Holds(cells, pushed, |pushed|)
      && Live(cells) + dropped == multiset(pushed)
      && turns == Turns(|pushed|, nbcell)
    }

    constructor (n: nat)
      requires n >= 1
      ensures Valid() && nbcell == n && pushed == [] && dropped == multiset{} && turns == 0
      ensures fresh(nbitem) && fresh(history)
    {
      hide Holds, Live, Turns;
      nbcell := n;
      nbitem := new int[n](_ => 0);
      history := new Sample[2 * n];
      pushed, dropped, turns := [], multiset{}, 0;
      new;
      var slots := history[..];
      cells := seq(nbcell, k requires 0 <= k < nbcell => Cell(0, slots[2 * k], slots[2 * k + 1]));
      NewCells(cells);
    }

    /** Puts elem into the first free slot of a cell and counts it. */
    method Store(cell: nat, elem: Sample)
      requires Linked() && cell < nbcell && 0 <= nbitem[cell] < 2
      modifies nbitem, history, `cells
      ensures Linked() && cells == old(cells)[cell := Put(old(cells)[cell], elem)]
    {
      history[2 * cell + nbitem[cell]] := elem;
      nbitem[cell] := nbitem[cell] + 1;
      cells := cells[cell := Put(cells[cell], elem)];
    }

    /** Empties a full cell and stores elem in it; the older element is handed on, the newer one is to be dropped. */
    method Restart(cell: nat, elem: Sample) returns (tmp: Sample, drop: Sample)
      requires Linked() && cell < nbcell && nbitem[cell] == 2
      modifies nbitem, history, `cells
      ensures Linked() && cells == old(cells)[cell := Put(old(cells)[cell], elem)]
      ensures tmp == old(cells)[cell].first && drop == old(cells)[cell].second
    {
      nbitem[cell] := 0;
      tmp := history[2 * cell];
      drop := history[2 * cell + 1];
      cells := cells[cell := cells[cell].(items := 0)];
      Store(cell, elem);
    }

    /** An element goes to the first cell; a full cell passes its older element on and drops the newer one;
        what leaves the last cell is dropped. */
    method Push(sample: Sample)
      requires Valid()
      modifies this, nbitem, history
      ensures Valid()
      ensures pushed == old(pushed) + [sample]
      ensures old(dropped) <= dropped
      ensures nbitem[0] in {1, 2} && history[nbitem[0] - 1] == sample
    {
      hide Pushing, Put, Live, Holds, Turns, CellHolds;
      ghost var n, all := |pushed|, pushed + [sample];
      ghost var gone, count := dropped, turns;
      PushBegins(cells, pushed, sample, gone, count);
      var cell: nat := 0;
      var elem := sample;
      var move := true;
      while move && cell < nbcell
        invariant cell <= nbcell
        invariant Linked() && old(dropped) <= gone
        invariant Pushing(cells, all, n, cell, elem, move, gone, count)
        decreases nbcell - cell, move
      {
        ghost var before := cells;
        if nbitem[cell] < 2 {
          PushStops(before, all, n, cell, elem, gone, count);
          Store(cell, elem);
          move := false;
        } else {
          PushMovesOn(before, all, n, cell, elem, gone, count);
          var tmp, drop := Restart(cell, elem);
          gone := gone + multiset{drop};
          elem := tmp;
          cell := cell + 1;
        }
        count := count + 1;
      }
      if move {
        PushRunsOut(cells, all, n, elem, gone, count);
        gone := gone + multiset{elem};
      }
      PushEnds(cells, all, n, cell, elem, gone, count);
      pushed, dropped, turns := all, gone, count;
      NewestIsLive(cells, pushed);
    }

    /** The first sample is live exactly during the first 2^(nbcell+1) - 2 pushes. */
    lemma FirstSampleIsLive()
      requires Valid() && pushed != [] && Distinct(pushed)
      ensures pushed[0] in Live(cells) <==> |pushed| <= 2 * Pow2(nbcell) - 2
    {
      hide Live, Turns, Holds, Oldest, Youngest, Arrivals;
      LiveIffShown(cells, pushed, 0);
      FirstSampleSurvives(|pushed|, nbcell);
      forall k: nat | k < nbcell && Shows(|pushed|, k, 0) ensures Oldest(|pushed|, k) == 0 {
        SlotsAreOrdered(|pushed|, k);
      }
      assert forall k: nat :: k < nbcell && Arrivals(|pushed|, k) > 0 && Oldest(|pushed|, k) == 0
                              ==> Shows(|pushed|, k, 0);
    }

    /** From push 2^nbcell - 1 on, the oldest live sample is exactly 2^nbcell - 2 + (n+1) mod 2^nbcell pushes older than
        the newest, which is between 2^nbcell - 2 and 2^(nbcell+1) - 3. */
    lemma OldestLiveSample() returns (oldest: nat)
      requires Valid() && Distinct(pushed) && |pushed| >= Pow2(nbcell) - 1 && pushed != []
      ensures oldest < |pushed| && pushed[oldest] in Live(cells)
      ensures forall j :: 0 <= j < |pushed| && pushed[j] in Live(cells) ==> oldest <= j
      ensures |pushed| - 1 - oldest == Pow2(nbcell) - 2 + (|pushed| + 1) % Pow2(nbcell)
      ensures Pow2(nbcell) - 2 <= |pushed| - 1 - oldest <= 2 * Pow2(nbcell) - 3
    {
      hide Live, Turns, Holds, Oldest, Youngest, Arrivals, Number;
      var n := |pushed|;
      HistoryReach(n, nbcell);
      LastCellIsUsed(n, nbcell);
      oldest := Oldest(n, nbcell - 1);
      SlotsAreOrdered(n, nbcell - 1);
      OldestRetained(n, nbcell, nbcell - 1);
      assert Shows(n, nbcell - 1, oldest);
      LiveIffShown(cells, pushed, oldest);
      forall j | 0 <= j < n && pushed[j] in Live(cells) ensures oldest <= j {
        LiveIffShown(cells, pushed, j);
        var k :| 0 <= k < nbcell && Shows(n, k, j);
        SlotsAreOrdered(n, k);
        OldestRetained(n, nbcell, k);
      }
    }

    /** All pushes together took fewer than two loop turns each. */
    lemma TurnsAreFew()
      requires Valid() && pushed != []
      ensures turns < 2 * |pushed|
    {
      TurnsAreLinear(|pushed|, nbcell);
    }

    /** The destructor: stops at the first empty cell, and yet frees exactly the live elements. */
    method Destroy() returns (freed: multiset<Sample>)
      requires Valid()
      ensures freed == Live(cells)
      ensures freed + dropped == multiset(pushed)
    {
      hide Holds, Turns, Live, Content;
      freed := multiset{};
      var cell := 0;
      LiveOfNone(cells);
      while cell < nbcell && nbitem[cell] > 0
        invariant 0 <= cell <= nbcell
        invariant freed == Live(cells[..cell])
      {
        CellItems(cells, pushed, cell);
        for i := 0 to nbitem[cell]
          invariant freed == Live(cells[..cell]) + Content(cells[cell].(items := i))
        {
          freed := freed + multiset{history[2 * cell + i]};
          ContentGrows(Live(cells[..cell]), cells[cell], i);
        }
        LiveSplit(cells, cell);
        cell := cell + 1;
      }
      EmptyCellEndsHistory(cells, pushed, cell);
    }

    /** Prints the older element of each cell that is later than the limit, the furthest cell first,
        and then the newest element if it has not been printed as an older one. */
    method DumpHistory(elapsedLimit: real) returns (shown: seq<Sample>)
      requires Valid()
      ensures var numbers := DumpNumbers(pushed, nbcell, elapsedLimit);
              |shown| == |numbers| && forall i :: 0 <= i < |shown| ==> shown[i] == pushed[numbers[i]]
    {
      hide Turns, Live;
      shown := [];
      var cell := nbcell - 1;
      while cell >= 0
        invariant -1 <= cell < nbcell
        invariant var numbers := OldNumbers(pushed, cell + 1, nbcell, elapsedLimit);
                  |shown| == |numbers| && forall i :: 0 <= i < |shown| ==> shown[i] == pushed[numbers[i]]
      {
        assert CellHolds(cells[cell], pushed, |pushed|, cell);
        if !(nbitem[cell] == 0 || history[2 * cell].elapsed <= elapsedLimit) {
          shown := shown + [history[2 * cell]];
        }
        cell := cell - 1;
      }
      assert CellHolds(cells[0], pushed, |pushed|, 0);
      if nbitem[0] == 2 {
        shown := shown + [history[1]]; // the newest is not the older element of any cell
      }
    }
  }

  lemma LiveOfNone(cells: seq<Cell>)
    ensures Live(cells[..0]) == multiset{}
  {}

  lemma ContentGrows(live: multiset<Sample>, cell: Cell, i: nat)
    requires i < 2
    ensures live + Content(cell.(items := i)) + multiset{if i == 0 then cell.first else cell.second}
            == live + Content(cell.(items := i + 1))
  {}

  lemma CellItems(cells: seq<Cell>, pushed: seq<Sample>, k: nat)
    requires Holds(cells, pushed, |pushed|) && k < |cells|
    ensures 0 <= cells[k].items <= 2
    ensures Content(cells[k].(items := 0)) == multiset{}
  {
    assert CellHolds(cells[k], pushed, |pushed|, k);
  }

  lemma PushEnds(cells: seq<Cell>, all: seq<Sample>, n: nat, cell: nat, elem: Sample, dropped: multiset<Sample>,
      turns: nat)
    requires Pushing(cells, all, n, cell, elem, false, dropped, turns)
    ensures Holds(cells, all, |all|) && Live(cells) + dropped == multiset(all) && turns == Turns(|all|, |cells|)
  {
    hide Holds, Midway, Live, Turns;
  }

  lemma {:induction false} TurnsOfNone(K: nat)
    ensures Turns(0, K) == 0
  {
    if K > 0 {
      TurnsOfNone(K - 1);
      ArrivalsArePast(0, K - 1);
    }
  }
}
