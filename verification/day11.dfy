/**
 * Dumbo octopus: a grid of energy levels updated in place. A round raises
 * every level by 1; every octopus above 9 flashes, which raises its eight
 * neighbours and may make them flash in turn; a flashed octopus is marked
 * with the sentinel -1 so that it flashes at most once, and is reset to 0
 * at the end of the round.
 */
module Day11Octopus {
  import opened Common

  /** A cell as (row, column). */
  type Pos = (int, int)

  /** The sentinel marking an octopus that has flashed in this round. */
  const Flashed: int := -1

  /** Energy levels by cell: the contents of the grid at one moment. */
  type Levels = map<Pos, int>

  /** The cells of row r left of column m. */
  ghost function RowCells(r: int, m: int): set<Pos>
    decreases m
  {
    if m <= 0 then {} else RowCells(r, m - 1) + {(r, m - 1)}
  }

  /** The cells of an n-by-m grid. */
  ghost function Cells(n: int, m: int): set<Pos>
    decreases n
  {
    if n <= 0 then {} else Cells(n - 1, m) + RowCells(n - 1, m)
  }

  lemma {:induction false} InRowCells(r: int, m: int, p: Pos)
    ensures p in RowCells(r, m) <==> p.0 == r && 0 <= p.1 < m
    decreases m
  {
    if m > 0 {
      InRowCells(r, m - 1, p);
    }
  }

  lemma {:induction false} InCells(n: int, m: int, p: Pos)
    ensures p in Cells(n, m) <==> 0 <= p.0 < n && 0 <= p.1 < m
    decreases n
  {
    if n > 0 {
      InCells(n - 1, m, p);
      InRowCells(n - 1, m, p);
    }
  }

  /** The eight cells around p (p itself excluded). */
  predicate Adj(p: Pos, q: Pos)
  {
    p != q && -1 <= p.0 - q.0 <= 1 && -1 <= p.1 - q.1 <= 1
  }

  /** The cells of v holding the sentinel. */
  ghost function FlashedIn(v: Levels): set<Pos>
  {
    set p | p in v && v[p] == Flashed
  }

  /** The cells that flashed between two moments. */
  ghost function NewFlashes(v0: Levels, v: Levels): set<Pos>
  {
    FlashedIn(v) - FlashedIn(v0)
  }

  ghost function Around(p: Pos, s: set<Pos>): set<Pos>
  {
    set q | q in s && Adj(p, q)
  }

  /** How many cells of s are neighbours of p. */
  ghost function Count(p: Pos, s: set<Pos>): nat
  {
    |Around(p, s)|
  }

  /** No level is below the sentinel. */
  ghost predicate AtLeastSentinel(v: Levels)
  {
    forall p :: p in v ==> v[p] >= Flashed
  }

  // ---------------------------------------------------------------------------
  // How a cascade changes the levels
  // ---------------------------------------------------------------------------

  /** The same cells, and a flashed cell stays flashed. */
  ghost predicate Shape(v0: Levels, v: Levels)
  {
    v.Keys == v0.Keys && FlashedIn(v0) <= FlashedIn(v)
  }

  /**
   * Every cell that has not flashed was raised once per neighbour that
   * flashed meanwhile, except that a neighbour in `pending` has not yet
   * been raised by the flash under way.
   */
  ghost predicate Raises(v0: Levels, v: Levels, pending: set<Pos>)
  {
    forall p {:trigger RaisedAt(v0, v, pending, p)} :: p in v && p in v0 && v[p] != Flashed ==> RaisedAt(v0, v, pending, p)
  }

  /** The level of p in v is its level in v0 raised once per neighbour that flashed since, bar a pending one. */
  ghost predicate RaisedAt(v0: Levels, v: Levels, pending: set<Pos>, p: Pos)
    requires p in v && p in v0
  {
    v[p] == v0[p] + Count(p, NewFlashes(v0, v)) - (if p in pending then 1 else 0)
  }

  /** A cell that was raised and has not flashed ended up below 10 (cells in `open` aside). */
  ghost predicate Settled(v0: Levels, v: Levels, open: set<Pos>)
  {
    forall p :: p in v && p in v0 && v[p] != Flashed && v[p] != v0[p] && p !in open ==> v[p] < 10
  }

  /** Starting from its level in v0, cell p reaches 10 counting the cells around it that flashed since. */
  ghost predicate Reached(v0: Levels, v: Levels, p: Pos)
    requires p in v0
  {
    v0[p] + Count(p, NewFlashes(v0, v)) >= 10
  }

  /**
   * Every cell that flashed (those in `exempt` aside) reached 10 counting
   * the flashes around it. (The trigger keeps the solver from chasing the
   * neighbours of neighbours.)
   */
  ghost predicate Justified(v0: Levels, v: Levels, exempt: set<Pos>)
  {
    forall p {:trigger Reached(v0, v, p)} :: p in NewFlashes(v0, v) && p in v0 && p !in exempt ==> Reached(v0, v, p)
  }

  ghost predicate Cascade(v0: Levels, v: Levels, pending: set<Pos>, exempt: set<Pos>)
  {
    Shape(v0, v) && Raises(v0, v, pending) && Settled(v0, v, {}) && Justified(v0, v, exempt)
  }

  // ---------------------------------------------------------------------------
  // Counting lemmas
  // ---------------------------------------------------------------------------

  lemma CountUnion(p: Pos, a: set<Pos>, b: set<Pos>)
    requires a !! b
    ensures Count(p, a + b) == Count(p, a) + Count(p, b)
  {
    assert Around(p, a + b) == Around(p, a) + Around(p, b);
    assert Around(p, a) !! Around(p, b);
  }

  lemma CountMono(p: Pos, a: set<Pos>, b: set<Pos>)
    requires a <= b
    ensures Count(p, a) <= Count(p, b)
  {
    SubsetCard(Around(p, a), Around(p, b));
  }

  lemma DisjointCard<T>(a: set<T>, b: set<T>)
    requires a !! b
    ensures |a + b| == |a| + |b|
  {
  }

  lemma SubsetCard<T>(a: set<T>, b: set<T>)
    requires a <= b
    ensures |a| <= |b|
    ensures a != b ==> |a| < |b|
  {
    assert b == a + (b - a);
    DisjointCard(a, b - a);
  }

  lemma CountSingle(p: Pos, s: Pos)
    ensures Count(p, {s}) == if Adj(p, s) then 1 else 0
  {
    if Adj(p, s) {
      assert Around(p, {s}) == {s};
    } else {
      assert Around(p, {s}) == {};
    }
  }

  /** Flashes between a and c are those between a and b followed by those between b and c. */
  lemma NewFlashesSplit(a: Levels, b: Levels, c: Levels)
    requires FlashedIn(a) <= FlashedIn(b) <= FlashedIn(c)
    ensures NewFlashes(a, c) == NewFlashes(a, b) + NewFlashes(b, c)
    ensures NewFlashes(a, b) !! NewFlashes(b, c)
    ensures |NewFlashes(a, c)| == |NewFlashes(a, b)| + |NewFlashes(b, c)|
  {
    assert NewFlashes(a, c) == NewFlashes(a, b) + NewFlashes(b, c);
    DisjointCard(NewFlashes(a, b), NewFlashes(b, c));
  }

  /** Writing x into cell p of v. */
  lemma FlashedUpdate(v: Levels, p: Pos, x: int)
    requires p in v
    ensures FlashedIn(v[p := x]) == if x == Flashed then FlashedIn(v) + {p} else FlashedIn(v) - {p}
  {
  }

  // ---------------------------------------------------------------------------
  // The neighbour loop of one flash
  // ---------------------------------------------------------------------------

  /** The cell the neighbour loop visits at row offset i - 1 and column offset j - 1 around p. */
  function Shift(p: Pos, i: int, j: int): Pos
  {
    (p.0 + i - 1, p.1 + j - 1)
  }

  /** The eight cells around p. */
  ghost function Ring(p: Pos): set<Pos>
  {
    {(p.0 - 1, p.1 - 1), (p.0 - 1, p.1), (p.0 - 1, p.1 + 1),
     (p.0, p.1 - 1), (p.0, p.1 + 1),
     (p.0 + 1, p.1 - 1), (p.0 + 1, p.1), (p.0 + 1, p.1 + 1)}
  }

  /** The loop visits offsets (a, b) in row-major order: is (a, b) at (i, j) or later? */
  predicate Later(a: int, b: int, i: int, j: int)
  {
    a > i || (a == i && b >= j)
  }

  lemma ShiftIs(p: Pos, i: int, j: int, r: int, c: int)
    requires r == p.0 + i - 1 && c == p.1 + j - 1
    ensures Shift(p, i, j) == (r, c)
  {
  }

  /** The neighbours of p that the loop reaches at (i, j) or later, rows outside and columns inside. */
  ghost function Pending(p: Pos, i: int, j: int): set<Pos>
  {
    set q | q in Ring(p) && Later(q.0 - p.0 + 1, q.1 - p.1 + 1, i, j)
  }

  /** `pending` holds the neighbours of p that the loop reaches at (i, j) or later. */
  ghost predicate PendingAt(pending: set<Pos>, p: Pos, i: int, j: int)
  {
    forall x :: x in pending <==> x in Ring(p) && Later(x.0 - p.0 + 1, x.1 - p.1 + 1, i, j)
  }

  lemma PendingAtIs(pending: set<Pos>, p: Pos, i: int, j: int)
    requires PendingAt(pending, p, i, j)
    ensures pending == Pending(p, i, j)
  {
  }

  lemma PendingAtOf(p: Pos, i: int, j: int)
    ensures PendingAt(Pending(p, i, j), p, i, j)
  {
  }

  lemma PendingStart(p: Pos, q: Pos)
    ensures q in Pending(p, 0, 0) <==> Adj(q, p)
  {
  }

  lemma PendingStep(p: Pos, i: int, j: int)
    requires 0 <= i < 3 && 0 <= j < 3
    ensures Pending(p, i, j + 1) == Pending(p, i, j) - {Shift(p, i, j)}
  {
  }

  lemma PendingNextRow(p: Pos, i: int)
    ensures Pending(p, i, 3) == Pending(p, i + 1, 0)
  {
  }

  lemma PendingEnd(p: Pos)
    ensures Pending(p, 3, 0) == {}
  {
  }

  /** The flash sets the start to the sentinel; none of its neighbours is raised yet. */
  lemma FlashStart(v0: Levels, start: Pos)
    requires start in v0 && v0[start] != Flashed
    ensures Cascade(v0, v0[start := Flashed], Pending(start, 0, 0), {start})
    ensures NewFlashes(v0, v0[start := Flashed]) == {start}
  {
    var v := v0[start := Flashed];
    FlashedUpdate(v0, start, Flashed);
    assert NewFlashes(v0, v) == {start};
    forall p | p in v && p in v0 && v[p] != Flashed
      ensures RaisedAt(v0, v, Pending(start, 0, 0), p)
    {
      CountSingle(p, start);
      PendingStart(start, p);
    }
  }

  /** A neighbour that is off the grid or has flashed already is passed over. */
  lemma SkipStep(v0: Levels, v: Levels, start: Pos, i: int, j: int, exempt: set<Pos>)
    requires 0 <= i < 3 && 0 <= j < 3
    requires Cascade(v0, v, Pending(start, i, j), exempt)
    requires Shift(start, i, j) !in v || v[Shift(start, i, j)] == Flashed
    ensures Cascade(v0, v, Pending(start, i, j + 1), exempt)
  {
    PendingStep(start, i, j);
    forall p | p in v && p in v0 && v[p] != Flashed
      ensures RaisedAt(v0, v, Pending(start, i, j + 1), p)
    {
      assert RaisedAt(v0, v, Pending(start, i, j), p);
    }
  }

  /** Raising a pending neighbour q that has not flashed. */
  lemma IncStep(v0: Levels, v: Levels, w: Levels, start: Pos, i: int, j: int, exempt: set<Pos>, q: Pos)
    requires 0 <= i < 3 && 0 <= j < 3 && start in FlashedIn(v) && AtLeastSentinel(v)
    requires Cascade(v0, v, Pending(start, i, j), exempt)
    requires q == Shift(start, i, j) && q in v && v[q] != Flashed
    requires w == v[q := v[q] + 1]
    ensures Shape(v0, w) && Raises(v0, w, Pending(start, i, j + 1)) && Settled(v0, w, {q})
    ensures Justified(v0, w, exempt) && AtLeastSentinel(w)
    ensures NewFlashes(v0, w) == NewFlashes(v0, v)
    ensures w[q] < 10 ==> Settled(v0, w, {})
  {
    FlashedUpdate(v, q, v[q] + 1);
    assert FlashedIn(w) == FlashedIn(v);
    PendingStep(start, i, j);
    assert q != start;
    assert q in Pending(start, i, j);
    var nf := NewFlashes(v0, v);
    forall p | p in w && p in v0 && w[p] != Flashed
      ensures RaisedAt(v0, w, Pending(start, i, j + 1), p)
    {
      assert RaisedAt(v0, v, Pending(start, i, j), p);
      if p != q {
        assert w[p] == v[p];
        assert p in Pending(start, i, j + 1) <==> p in Pending(start, i, j);
      }
    }
    forall p | p in NewFlashes(v0, w) && p in v0 && p !in exempt
      ensures Reached(v0, w, p)
    {
      assert Reached(v0, v, p);
    }
  }

  /**
   * After a neighbour q reached 10 and its own cascade ran from b to c,
   * the whole cascade from a still raises, settles and justifies.
   */
  lemma AfterChild(a: Levels, b: Levels, c: Levels, pending: set<Pos>, exempt: set<Pos>, q: Pos)
    requires Shape(a, b) && Raises(a, b, pending) && Settled(a, b, {q}) && Justified(a, b, exempt)
    requires Cascade(b, c, {}, {q})
    requires q in a && q in b && b[q] != Flashed && b[q] >= 10 && q !in pending
    requires q in FlashedIn(c)
    ensures Cascade(a, c, pending, exempt)
    ensures |NewFlashes(a, c)| == |NewFlashes(a, b)| + |NewFlashes(b, c)|
  {
    NewFlashesSplit(a, b, c);
    var ab, bc, ac := NewFlashes(a, b), NewFlashes(b, c), NewFlashes(a, c);
    forall p | p in c && p in a && c[p] != Flashed
      ensures RaisedAt(a, c, pending, p)
    {
      CountUnion(p, ab, bc);
      assert RaisedAt(b, c, {}, p);
      assert RaisedAt(a, b, pending, p);
    }
    forall p | p in ac && p in a && p !in exempt
      ensures Reached(a, c, p)
    {
      CountUnion(p, ab, bc);
      if p in ab {
        assert Reached(a, b, p);
      } else {
        assert b[p] != Flashed;
        assert RaisedAt(a, b, pending, p);
        if p != q {
          assert Reached(b, c, p);
        }
      }
    }
  }

  /** How many cells have not flashed: the measure that makes the cascade end. */
  ghost function Unflashed(v: Levels): nat
  {
    |v.Keys - FlashedIn(v)|
  }

  lemma UnflashedDecreases(a: Levels, b: Levels, p: Pos)
    requires Shape(a, b) && p in FlashedIn(b) && p in a && p !in FlashedIn(a)
    ensures Unflashed(b) < Unflashed(a)
  {
    SubsetCard(b.Keys - FlashedIn(b), a.Keys - FlashedIn(a));
  }

  // ---------------------------------------------------------------------------
  // The least cascade: every flash is ignited by the flashes before it
  // ---------------------------------------------------------------------------

  /**
   * Cell p ignites once the cells of `prior` have flashed: it is exempt
   * (it flashes unconditionally), or some of them are around it and raise
   * it from its level in v0 to 10 or more.
   */
  ghost predicate Ignites(v0: Levels, p: Pos, prior: set<Pos>, exempt: set<Pos>)
    requires p in v0
  {
    p in exempt || (Count(p, prior) > 0 && v0[p] + Count(p, prior) >= 10)
  }

  /** s holds every octopus that had not flashed in v0 and that the flashes of s ignite. */
  ghost predicate Closed(v0: Levels, s: set<Pos>, exempt: set<Pos>)
  {
    forall p {:trigger Ignites(v0, p, s, exempt)} :: p in v0 && v0[p] != Flashed && Ignites(v0, p, s, exempt) ==> p in s
  }

  /** The flashes from v0 to v lie inside every closed set: no octopus flashed that did not have to. */
  ghost predicate Least(v0: Levels, v: Levels, exempt: set<Pos>)
  {
    forall s {:trigger Closed(v0, s, exempt)} :: Closed(v0, s, exempt) ==> NewFlashes(v0, v) <= s
  }

  ghost function Elems(order: seq<Pos>): set<Pos>
  {
    set p | p in order
  }

  /** Each cell of `order` ignites from the cells listed before it. */
  ghost predicate Ordered(v0: Levels, order: seq<Pos>, exempt: set<Pos>)
    decreases |order|
  {
    order == [] ||
    (var init, p := order[..|order| - 1], order[|order| - 1];
     Ordered(v0, init, exempt) && p in v0 && Ignites(v0, p, Elems(init), exempt))
  }

  /** An exempt cell on its own is an order. */
  lemma OrderedSingle(v0: Levels, p: Pos, exempt: set<Pos>)
    requires p in v0 && p in exempt
    ensures Ordered(v0, [p], exempt)
  {
    assert [p][..0] == [];
    assert Ordered(v0, [], exempt);
  }

  /** `order` lists the flashes from v0 to v so that each ignites from those before it. */
  ghost predicate FlashOrder(v0: Levels, v: Levels, order: seq<Pos>, exempt: set<Pos>)
  {
    Ordered(v0, order, exempt) && Elems(order) == NewFlashes(v0, v)
  }

  lemma IgnitesMono(v0: Levels, p: Pos, a: set<Pos>, b: set<Pos>, exempt: set<Pos>)
    requires p in v0 && a <= b && Ignites(v0, p, a, exempt)
    ensures Ignites(v0, p, b, exempt)
  {
    CountMono(p, a, b);
  }

  /** The cells of an ignition order lie in every closed set. */
  lemma {:induction false} OrderedInClosed(v0: Levels, order: seq<Pos>, exempt: set<Pos>, s: set<Pos>)
    requires Ordered(v0, order, exempt) && Closed(v0, s, exempt)
    requires Elems(order) !! FlashedIn(v0)
    ensures Elems(order) <= s
    decreases |order|
  {
    if order != [] {
      var init, p := order[..|order| - 1], order[|order| - 1];
      assert order == init + [p];
      assert Elems(order) == Elems(init) + {p};
      OrderedInClosed(v0, init, exempt, s);
      IgnitesMono(v0, p, Elems(init), s, exempt);
    }
  }

  /** Flashes that ignite in order are the least ones. */
  lemma OrderLeast(v0: Levels, v: Levels, order: seq<Pos>, exempt: set<Pos>)
    requires FlashOrder(v0, v, order, exempt)
    ensures Least(v0, v, exempt)
  {
    forall s | Closed(v0, s, exempt)
      ensures NewFlashes(v0, v) <= s
    {
      OrderedInClosed(v0, order, exempt, s);
    }
  }

  /**
   * The flashes of a nested cascade from b (started at q), listed after the
   * flashes from a to b, still ignite in order when counted from a.
   */
  lemma {:induction false} OrderedAppend(a: Levels, b: Levels, o1: seq<Pos>, o2: seq<Pos>, pending: set<Pos>, exempt: set<Pos>, q: Pos)
    requires Shape(a, b) && Raises(a, b, pending)
    requires Ordered(a, o1, exempt) && Elems(o1) == NewFlashes(a, b)
    requires Ordered(b, o2, {q}) && Elems(o2) !! FlashedIn(b)
    requires q in a && Ignites(a, q, NewFlashes(a, b), exempt)
    ensures Ordered(a, o1 + o2, exempt)
    decreases |o2|
  {
    if o2 == [] {
      assert o1 + o2 == o1;
    } else {
      var init, p := o2[..|o2| - 1], o2[|o2| - 1];
      ElemsSnoc(init, p);
      assert o2 == init + [p];
      OrderedAppend(a, b, o1, init, pending, exempt, q);
      ElemsAppend(o1, init);
      AppendIgnites(a, b, pending, exempt, q, p, Elems(init));
      OrderedSnoc(a, o1 + init, p, exempt);
      assert o1 + o2 == (o1 + init) + [p];
    }
  }

  lemma ElemsAppend(x: seq<Pos>, y: seq<Pos>)
    ensures Elems(x + y) == Elems(x) + Elems(y)
  {
  }

  lemma ElemsSnoc(x: seq<Pos>, p: Pos)
    ensures Elems(x + [p]) == Elems(x) + {p}
  {
  }

  lemma OrderedSnoc(v0: Levels, order: seq<Pos>, p: Pos, exempt: set<Pos>)
    requires Ordered(v0, order, exempt) && p in v0 && Ignites(v0, p, Elems(order), exempt)
    ensures Ordered(v0, order + [p], exempt)
  {
    assert (order + [p])[..|order|] == order;
  }

  /** A cell ignited in the nested cascade from b also ignites from a, counting the flashes from a to b. */
  lemma AppendIgnites(a: Levels, b: Levels, pending: set<Pos>, exempt: set<Pos>, q: Pos, p: Pos, e: set<Pos>)
    requires Shape(a, b) && Raises(a, b, pending)
    requires q in a && Ignites(a, q, NewFlashes(a, b), exempt)
    requires p in b && p !in FlashedIn(b) && e !! FlashedIn(b) && Ignites(b, p, e, {q})
    ensures p in a && Ignites(a, p, NewFlashes(a, b) + e, exempt)
  {
    var ab := NewFlashes(a, b);
    if p == q {
      IgnitesMono(a, q, ab, ab + e, exempt);
    } else {
      CountUnion(p, ab, e);
      assert RaisedAt(a, b, pending, p);
    }
  }

  // ---------------------------------------------------------------------------
  // The grid, updated in place
  // ---------------------------------------------------------------------------

  lemma CellsBounded(n: int, m: int)
    ensures forall p :: p in Cells(n, m) ==> 0 <= p.0 < n && 0 <= p.1 < m
  {
    forall p | p in Cells(n, m)
      ensures 0 <= p.0 < n && 0 <= p.1 < m
    {
      InCells(n, m, p);
    }
  }

  /** The grid's contents as levels by cell. */
  ghost function Snap(grid: array2<int>): (v: Levels)
    reads grid
    ensures v.Keys == Cells(grid.Length0, grid.Length1)
  {
    CellsBounded(grid.Length0, grid.Length1);
    map p | p in Cells(grid.Length0, grid.Length1) :: grid[p.0, p.1]
  }

  /** A cell is in the snapshot exactly when it is on the grid, and then holds its level. */
  lemma SnapDomain(grid: array2<int>, r: int, c: int)
    ensures (r, c) in Snap(grid) <==> 0 <= r < grid.Length0 && 0 <= c < grid.Length1
    ensures (r, c) in Snap(grid) ==> Snap(grid)[(r, c)] == grid[r, c]
  {
    InCells(grid.Length0, grid.Length1, (r, c));
  }

  /** The states a whole flash of `start` may end in, starting from v0. */
  ghost function Cascaded(v0: Levels, start: Pos): iset<Levels>
  {
    iset v | Cascade(v0, v, {}, {start}) && start in FlashedIn(v) && AtLeastSentinel(v) && Least(v0, v, {start})
  }

  /**
   * The states a flash of `start` may be in while the neighbours in
   * `pending` are still to be raised, having made `flashes` octopuses flash.
   */
  ghost function Progress(v0: Levels, start: Pos, pending: set<Pos>, flashes: int): iset<Levels>
  {
    iset v | && Cascade(v0, v, pending, {start})
             && start in v0 && start !in FlashedIn(v0) && start in FlashedIn(v)
             && AtLeastSentinel(v)
             && flashes == |NewFlashes(v0, v)|
  }

  /**
   * The states just after the neighbour q reached 10, before its own flash;
   * `pending` are the neighbours after q.
   */
  ghost function Raised(v0: Levels, start: Pos, pending: set<Pos>, flashes: int, q: Pos): iset<Levels>
  {
    iset w | && Shape(v0, w) && Raises(v0, w, pending)
             && Settled(v0, w, {q}) && Justified(v0, w, {start})
             && start in v0 && start !in FlashedIn(v0) && start in FlashedIn(w) && AtLeastSentinel(w)
             && flashes == |NewFlashes(v0, w)|
             && q in v0 && q in w && w[q] != Flashed && w[q] >= 10 && q !in pending
  }

  lemma ProgressStart(v0: Levels, start: Pos)
    requires start in v0 && v0[start] != Flashed && AtLeastSentinel(v0)
    ensures v0[start := Flashed] in Progress(v0, start, Pending(start, 0, 0), 1)
  {
    FlashStart(v0, start);
  }

  lemma ProgressSkip(v0: Levels, v: Levels, start: Pos, i: int, j: int, flashes: int)
    requires 0 <= i < 3 && 0 <= j < 3
    requires v in Progress(v0, start, Pending(start, i, j), flashes)
    requires Shift(start, i, j) !in v || v[Shift(start, i, j)] == Flashed
    ensures v in Progress(v0, start, Pending(start, i, j + 1), flashes)
  {
    SkipStep(v0, v, start, i, j, {start});
  }

  lemma ProgressRaise(v0: Levels, v: Levels, w: Levels, start: Pos, i: int, j: int, flashes: int, x: int)
    requires 0 <= i < 3 && 0 <= j < 3
    requires v in Progress(v0, start, Pending(start, i, j), flashes)
    requires Shift(start, i, j) in v && v[Shift(start, i, j)] != Flashed
    requires x == v[Shift(start, i, j)] + 1 && w == v[Shift(start, i, j) := x]
    ensures NewFlashes(v0, w) == NewFlashes(v0, v) && FlashedIn(w) == FlashedIn(v)
    ensures x < 10 ==> w in Progress(v0, start, Pending(start, i, j + 1), flashes)
    ensures x >= 10 ==> w in Raised(v0, start, Pending(start, i, j + 1), flashes, Shift(start, i, j))
  {
    var q := Shift(start, i, j);
    IncStep(v0, v, w, start, i, j, {start}, q);
    PendingStep(start, i, j);
    FlashedUpdate(v, q, x);
    if x >= 10 {
      RaisedIn(v0, w, start, Pending(start, i, j + 1), flashes, q);
    }
  }

  lemma RaisedIn(v0: Levels, w: Levels, start: Pos, pending: set<Pos>, flashes: int, q: Pos)
    requires Shape(v0, w) && Raises(v0, w, pending)
    requires Settled(v0, w, {q}) && Justified(v0, w, {start})
    requires start in v0 && start !in FlashedIn(v0) && start in FlashedIn(w) && AtLeastSentinel(w)
    requires flashes == |NewFlashes(v0, w)|
    requires q in v0 && q in w && w[q] != Flashed && w[q] >= 10 && q !in pending
    ensures w in Raised(v0, start, pending, flashes, q)
  {
  }

  lemma ProgressChild(v0: Levels, w: Levels, c: Levels, start: Pos, pending: set<Pos>, flashes: int, q: Pos, child: int)
    requires w in Raised(v0, start, pending, flashes, q)
    requires c in Cascaded(w, q) && child == |NewFlashes(w, c)|
    ensures c in Progress(v0, start, pending, flashes + child)
  {
    AfterChild(v0, w, c, pending, {start}, q);
  }

  /** While a flash is under way, fewer cells are unflashed than before it. */
  lemma ProgressUnflashed(v0: Levels, v: Levels, start: Pos, pending: set<Pos>, flashes: int)
    requires v in Progress(v0, start, pending, flashes)
    ensures Unflashed(v) < Unflashed(v0)
  {
    UnflashedDecreases(v0, v, start);
  }

  /** Raising an unflashed cell by one leaves the same cells unflashed and no level below the sentinel. */
  lemma BumpKeeps(v: Levels, q: Pos)
    requires q in v && v[q] != Flashed && AtLeastSentinel(v)
    ensures FlashedIn(v[q := v[q] + 1]) == FlashedIn(v)
    ensures Unflashed(v[q := v[q] + 1]) == Unflashed(v)
    ensures AtLeastSentinel(v[q := v[q] + 1])
  {
    FlashedUpdate(v, q, v[q] + 1);
    assert v[q := v[q] + 1].Keys == v.Keys;
  }

  lemma ProgressEnd(v0: Levels, v: Levels, start: Pos, flashes: int, order: seq<Pos>)
    requires v in Progress(v0, start, {}, flashes) && FlashOrder(v0, v, order, {start})
    ensures v in Cascaded(v0, start) && flashes == |NewFlashes(v0, v)|
  {
    OrderLeast(v0, v, order, {start});
  }

  /** The flash of the neighbour q = Shift(start, i, j), which reached 10, continues the ignition order. */
  lemma ChildOrder(v0: Levels, w: Levels, c: Levels, start: Pos, pending: set<Pos>, flashes: int, q: Pos, i: int, j: int,
                   order: seq<Pos>, child: seq<Pos>)
    requires 0 <= i < 3 && 0 <= j < 3 && q == Shift(start, i, j)
    requires w in Raised(v0, start, pending, flashes, q) && FlashOrder(v0, w, order, {start})
    requires c in Cascaded(w, q) && FlashOrder(w, c, child, {q})
    ensures FlashOrder(v0, c, order + child, {start})
  {
    var nf := NewFlashes(v0, w);
    assert start in Around(q, nf);
    assert RaisedAt(v0, w, pending, q);
    NewFlashesSplit(v0, w, c);
    OrderedAppend(v0, w, order, child, pending, {start}, q);
    ElemsAppend(order, child);
  }

  /**
   * `flash_octopus`: marks the octopus as flashed, then raises each of the
   * nine cells around it (itself included) that is on the grid and has not
   * flashed, flashing in turn any that reaches 10. The count returned is
   * the number of octopuses that flashed, this one included.
   */
  method FlashOctopus(grid: array2<int>, row: int, col: int) returns (flashes: nat, ghost order: seq<Pos>)
    requires 0 <= row < grid.Length0 && 0 <= col < grid.Length1
    requires grid[row, col] != Flashed
    requires AtLeastSentinel(Snap(grid))
    modifies grid
    ensures Snap(grid) in Cascaded(old(Snap(grid)), (row, col))
    ensures flashes == |NewFlashes(old(Snap(grid)), Snap(grid))|
    ensures FlashOrder(old(Snap(grid)), Snap(grid), order, {(row, col)})
    decreases Unflashed(Snap(grid)), 1
  {
    ghost var v0 := Snap(grid);
    ghost var start := (row, col);
    var numRow, numCol := grid.Length0, grid.Length1;
    flashes := 1;
    SnapDomain(grid, row, col);
    grid[row, col] := Flashed;
    assert Snap(grid) == v0[start := Flashed];
    ProgressStart(v0, start);
    order := [start];
    OrderedSingle(v0, start, {start});
    ghost var pending := Pending(start, 0, 0);
    PendingAtOf(start, 0, 0);
    for i := 0 to 3
      invariant PendingAt(pending, start, i, 0)
      invariant Snap(grid) in Progress(v0, start, pending, flashes)
      invariant FlashOrder(v0, Snap(grid), order, {start})
    {
      for j := 0 to 3
        invariant PendingAt(pending, start, i, j)
        invariant Snap(grid) in Progress(v0, start, pending, flashes)
        invariant FlashOrder(v0, Snap(grid), order, {start})
      {
        PendingAtIs(pending, start, i, j);
        ProgressUnflashed(v0, Snap(grid), start, pending, flashes);
        var added;
        added, order := VisitNeighbour(grid, row, col, i, j, v0, flashes, order);
        flashes := flashes + added;
        pending := Pending(start, i, j + 1);
        PendingAtOf(start, i, j + 1);
      }
      PendingAtIs(pending, start, i, 3);
      PendingNextRow(start, i);
      pending := Pending(start, i + 1, 0);
      PendingAtOf(start, i + 1, 0);
    }
    PendingAtIs(pending, start, 3, 0);
    PendingEnd(start);
    ProgressEnd(v0, Snap(grid), start, flashes, order);
  }

  /**
   * The body of the neighbour loop of `flash_octopus` for the offsets (i, j):
   * the neighbour is raised by one if it is on the grid and has not flashed,
   * and flashed in turn if it reached 10. The count returned is the number
   * of octopuses that flashed on the way.
   */
  method VisitNeighbour(grid: array2<int>, row: int, col: int, i: int, j: int, ghost v0: Levels, ghost flashes: int,
                        ghost order: seq<Pos>)
    returns (added: nat, ghost order': seq<Pos>)
    requires 0 <= row < grid.Length0 && 0 <= col < grid.Length1 && 0 <= i < 3 && 0 <= j < 3
    requires Snap(grid) in Progress(v0, (row, col), Pending((row, col), i, j), flashes)
    requires FlashOrder(v0, Snap(grid), order, {(row, col)})
    modifies grid
    ensures Snap(grid) in Progress(v0, (row, col), Pending((row, col), i, j + 1), flashes + added)
    ensures FlashOrder(v0, Snap(grid), order', {(row, col)})
    decreases Unflashed(Snap(grid)) + 1, 0
  {
    ghost var start := (row, col);
    var rowAdjacent, colAdjacent := row + i - 1, col + j - 1;
    ghost var v := Snap(grid);
    ShiftIs(start, i, j, rowAdjacent, colAdjacent);
    SnapDomain(grid, rowAdjacent, colAdjacent);
    added, order' := 0, order;
    if 0 <= rowAdjacent < grid.Length0 && 0 <= colAdjacent < grid.Length1 && grid[rowAdjacent, colAdjacent] != Flashed {
      grid[rowAdjacent, colAdjacent] := grid[rowAdjacent, colAdjacent] + 1;
      ghost var w := Snap(grid);
      ProgressRaise(v0, v, w, start, i, j, flashes, grid[rowAdjacent, colAdjacent]);
      if grid[rowAdjacent, colAdjacent] >= 10 {
        BumpKeeps(v, (rowAdjacent, colAdjacent));
        ghost var child;
        added, child := FlashOctopus(grid, rowAdjacent, colAdjacent);
        ProgressChild(v0, w, Snap(grid), start, Pending(start, i, j + 1), flashes, (rowAdjacent, colAdjacent), added);
        ChildOrder(v0, w, Snap(grid), start, Pending(start, i, j + 1), flashes, (rowAdjacent, colAdjacent), i, j, order, child);
        order' := order + child;
      }
    } else {
      ProgressSkip(v0, v, start, i, j, flashes);
    }
  }

  // ---------------------------------------------------------------------------
  // A round: raise every level, flash, reset the flashed octopuses
  // ---------------------------------------------------------------------------

  /** Every level raised by one. */
  ghost function Inc(v: Levels): Levels
  {
    map p | p in v :: v[p] + 1
  }

  ghost predicate NonNegative(v: Levels)
  {
    forall p :: p in v ==> v[p] >= 0
  }

  /** Energy levels as read from the puzzle input: single digits. */
  ghost predicate Digits(v: Levels)
  {
    forall p :: p in v ==> 0 <= v[p] <= 9
  }

  /** Every octopus that has not flashed is at 9 or below. */
  ghost predicate Calm(v: Levels)
  {
    forall p :: p in v && v[p] != Flashed ==> v[p] < 10
  }

  /** The grid loops visit cells in row-major order: is p visited before (row, col)? */
  predicate Before(p: Pos, row: int, col: int)
  {
    p.0 < row || (p.0 == row && p.1 < col)
  }

  /** The cells visited before (row, col) have flashed or are at 9 or below. */
  ghost predicate CalmBefore(v: Levels, row: int, col: int)
  {
    forall p :: p in v && Before(p, row, col) ==> v[p] == Flashed || v[p] < 10
  }

  /**
   * The states the flash phase of a round may end in, from the raised
   * levels v1: a cascade from v1 after which no octopus that has not
   * flashed is above 9.
   */
  ghost function Settles(v1: Levels): iset<Levels>
  {
    iset v | Cascade(v1, v, {}, {}) && Calm(v) && AtLeastSentinel(v) && Least(v1, v, Hot(v1))
  }

  /** The octopuses at 10 or above once every level is raised: they flash without being raised by a neighbour. */
  ghost function Hot(v1: Levels): set<Pos>
  {
    set p | p in v1 && v1[p] >= 10
  }

  /** The states of the flash phase before it visits (row, col), `sum` octopuses having flashed. */
  ghost function Visiting(v1: Levels, row: int, col: int, sum: int): iset<Levels>
  {
    iset v | Cascade(v1, v, {}, {}) && AtLeastSentinel(v) && CalmBefore(v, row, col) && sum == |NewFlashes(v1, v)|
  }

  /** The cells in rows before `rows` and columns before `cols` holding the sentinel, set back to 0. */
  ghost function ResetUpTo(v: Levels, rows: int, cols: int): Levels
  {
    map p | p in v :: if p.0 < rows && p.1 < cols && v[p] == Flashed then 0 else v[p]
  }

  ghost function Zeros(v: Levels): set<Pos>
  {
    set p | p in v && v[p] == 0
  }

  lemma VisitStart(v1: Levels, n: int, m: int)
    requires v1.Keys == Cells(n, m) && NonNegative(v1)
    ensures v1 in Visiting(v1, 0, 0, 0)
    ensures FlashOrder(v1, v1, [], Hot(v1))
  {
    forall p | p in v1
      ensures !Before(p, 0, 0)
    {
      InCells(n, m, p);
    }
    assert FlashedIn(v1) == {};
    assert NewFlashes(v1, v1) == {};
    forall p | p in v1
      ensures RaisedAt(v1, v1, {}, p)
    {
      assert Around(p, {}) == {};
    }
  }

  /** Visiting a cell that flashes: the cascade of its flash extends the phase's cascade. */
  lemma VisitFlash(v1: Levels, b: Levels, c: Levels, q: Pos, row: int, col: int, sum: int, child: int)
    requires b in Visiting(v1, row, col, sum)
    requires q.0 == row && q.1 == col && q in b && b[q] != Flashed && b[q] >= 10
    requires c in Cascaded(b, q) && child == |NewFlashes(b, c)|
    ensures c in Visiting(v1, row, col + 1, sum + child)
  {
    AfterChild(v1, b, c, {}, {}, q);
    forall p | p in c && Before(p, row, col + 1)
      ensures c[p] == Flashed || c[p] < 10
    {
      if !Before(p, row, col) {
        assert p.0 == q.0 && p.1 == q.1;
        assert p == q;
      }
    }
  }

  /** The flashes of the cascade from the visited cell q continue the round's ignition order. */
  lemma VisitOrder(v1: Levels, b: Levels, c: Levels, q: Pos, order: seq<Pos>, child: seq<Pos>)
    requires Cascade(v1, b, {}, {}) && q in v1 && q in b && b[q] != Flashed && b[q] >= 10
    requires FlashOrder(v1, b, order, Hot(v1))
    requires Shape(b, c) && FlashOrder(b, c, child, {q})
    ensures FlashOrder(v1, c, order + child, Hot(v1))
  {
    assert RaisedAt(v1, b, {}, q);
    NewFlashesSplit(v1, b, c);
    OrderedAppend(v1, b, order, child, {}, Hot(v1), q);
    ElemsAppend(order, child);
  }

  lemma VisitSkip(v1: Levels, b: Levels, row: int, col: int, sum: int)
    requires b in Visiting(v1, row, col, sum)
    requires (row, col) in b && b[(row, col)] < 10
    ensures b in Visiting(v1, row, col + 1, sum)
  {
    forall p | p in b && Before(p, row, col + 1)
      ensures b[p] == Flashed || b[p] < 10
    {
      if !Before(p, row, col) {
        assert p == (row, col);
      }
    }
  }

  lemma VisitNextRow(v1: Levels, v: Levels, row: int, n: int, m: int, sum: int)
    requires v1.Keys == Cells(n, m)
    requires v in Visiting(v1, row, m, sum)
    ensures v in Visiting(v1, row + 1, 0, sum)
  {
    forall p | p in v && Before(p, row + 1, 0)
      ensures v[p] == Flashed || v[p] < 10
    {
      InCells(n, m, p);
      assert Before(p, row, m);
    }
  }

  lemma VisitEnd(v1: Levels, v: Levels, n: int, m: int, sum: int, order: seq<Pos>)
    requires v1.Keys == Cells(n, m) && NonNegative(v1)
    requires v in Visiting(v1, n, 0, sum) && FlashOrder(v1, v, order, Hot(v1))
    ensures v in Settles(v1) && sum == |FlashedIn(v)|
  {
    OrderLeast(v1, v, order, Hot(v1));
    assert FlashedIn(v1) == {};
    assert NewFlashes(v1, v) == FlashedIn(v);
    forall p | p in v && v[p] != Flashed
      ensures v[p] < 10
    {
      InCells(n, m, p);
      assert Before(p, n, 0);
    }
  }

  /** Phase one of `simulate_round`: every level is raised by one. */
  method RaiseAll(grid: array2<int>)
    modifies grid
    ensures Snap(grid) == Inc(old(Snap(grid)))
  {
    for row := 0 to grid.Length0
      invariant forall a, b :: 0 <= a < grid.Length0 && 0 <= b < grid.Length1 ==>
        grid[a, b] == old(grid[a, b]) + (if a < row then 1 else 0)
    {
      for col := 0 to grid.Length1
        invariant forall a, b :: 0 <= a < grid.Length0 && 0 <= b < grid.Length1 ==>
          grid[a, b] == old(grid[a, b]) + (if Before((a, b), row, col) then 1 else 0)
      {
        grid[row, col] := grid[row, col] + 1;
      }
    }
    forall p | p in Cells(grid.Length0, grid.Length1)
      ensures Snap(grid)[p] == Inc(old(Snap(grid)))[p]
    {
      InCells(grid.Length0, grid.Length1, p);
    }
  }

  /**
   * Phase two of `simulate_round`: every octopus found at 10 or above, in
   * row-major order, flashes. The count returned is the number of
   * octopuses that flashed.
   */
  method FlashAll(grid: array2<int>) returns (sum: nat)
    requires NonNegative(Snap(grid))
    modifies grid
    ensures Snap(grid) in Settles(old(Snap(grid)))
    ensures sum == |FlashedIn(Snap(grid))|
  {
    ghost var v1 := Snap(grid);
    ghost var order: seq<Pos> := [];
    sum := 0;
    VisitStart(v1, grid.Length0, grid.Length1);
    for row := 0 to grid.Length0
      invariant Snap(grid) in Visiting(v1, row, 0, sum)
      invariant FlashOrder(v1, Snap(grid), order, Hot(v1))
    {
      for col := 0 to grid.Length1
        invariant Snap(grid) in Visiting(v1, row, col, sum)
        invariant FlashOrder(v1, Snap(grid), order, Hot(v1))
      {
        ghost var b := Snap(grid);
        SnapDomain(grid, row, col);
        if grid[row, col] >= 10 {
          var flashes;
          ghost var child;
          flashes, child := FlashOctopus(grid, row, col);
          VisitFlash(v1, b, Snap(grid), (row, col), row, col, sum, flashes);
          VisitOrder(v1, b, Snap(grid), (row, col), order, child);
          order := order + child;
          sum := sum + flashes;
        } else {
          VisitSkip(v1, b, row, col, sum);
        }
      }
      VisitNextRow(v1, Snap(grid), row, grid.Length0, grid.Length1, sum);
    }
    VisitEnd(v1, Snap(grid), grid.Length0, grid.Length1, sum, order);
  }

  /**
   * Phase three of `simulate_round`: sets the sentinel back to 0, visiting
   * the columns before `colBound` of every row. A column past the end of a
   * row is an index error, raised in the first row.
   */
  method ResetFlashed(grid: array2<int>, colBound: nat) returns (ok: bool)
    modifies grid
    ensures ok <==> grid.Length0 == 0 || colBound <= grid.Length1
    ensures ok ==> Snap(grid) == ResetUpTo(old(Snap(grid)), grid.Length0, colBound)
    ensures !ok ==> Snap(grid) == ResetUpTo(old(Snap(grid)), 1, grid.Length1)
  {
    for row := 0 to grid.Length0
      invariant row > 0 ==> colBound <= grid.Length1
      invariant forall a, b :: 0 <= a < grid.Length0 && 0 <= b < grid.Length1 ==>
        grid[a, b] == if a < row && b < colBound && old(grid[a, b]) == Flashed then 0 else old(grid[a, b])
    {
      for col := 0 to colBound
        invariant row > 0 ==> colBound <= grid.Length1
        invariant col <= grid.Length1
        invariant forall a, b :: 0 <= a < grid.Length0 && 0 <= b < grid.Length1 ==>
          grid[a, b] == if Before((a, b), row, col) && b < colBound && old(grid[a, b]) == Flashed then 0 else old(grid[a, b])
      {
        if col >= grid.Length1 {
          forall p | p in Cells(grid.Length0, grid.Length1)
            ensures Snap(grid)[p] == ResetUpTo(old(Snap(grid)), 1, grid.Length1)[p]
          {
            InCells(grid.Length0, grid.Length1, p);
          }
          return false;
        }
        if grid[row, col] == Flashed {
          grid[row, col] := 0;
        }
      }
    }
    forall p | p in Cells(grid.Length0, grid.Length1)
      ensures Snap(grid)[p] == ResetUpTo(old(Snap(grid)), grid.Length0, colBound)[p]
    {
      InCells(grid.Length0, grid.Length1, p);
    }
    return true;
  }

  /**
   * `simulate_round` as written: the reset loop bounds its columns by the
   * number of rows. An empty grid is an index error (it has no first row).
   */
  method SimulateRound(grid: array2<int>) returns (r: Result<nat>, ghost mid: Levels)
    requires AtLeastSentinel(Snap(grid))
    modifies grid
    ensures r.Ok? <==> 0 < grid.Length0 <= grid.Length1
    ensures r.Err? ==> r.error == IndexError
    ensures 0 < grid.Length0 ==> mid in Settles(Inc(old(Snap(grid))))
    ensures r.Ok? ==> r.value == |FlashedIn(mid)| && Snap(grid) == ResetUpTo(mid, grid.Length0, grid.Length0)
    ensures grid.Length1 < grid.Length0 ==> Snap(grid) == ResetUpTo(mid, 1, grid.Length1)
  {
    mid := Snap(grid);
    if grid.Length0 == 0 {
      return Err(IndexError), mid;
    }
    RaiseAll(grid);
    var sum := FlashAll(grid);
    mid := Snap(grid);
    var ok := ResetFlashed(grid, grid.Length0);
    if !ok {
      return Err(IndexError), mid;
    }
    return Ok(sum), mid;
  }

  /** `simulate_round` with the reset loop bounding its columns by the number of columns. */
  method SimulateRoundCorrected(grid: array2<int>) returns (r: Result<nat>, ghost mid: Levels)
    requires AtLeastSentinel(Snap(grid))
    modifies grid
    ensures r.Ok? <==> 0 < grid.Length0
    ensures r.Err? ==> r.error == IndexError
    ensures r.Ok? ==> mid in Settles(Inc(old(Snap(grid))))
    ensures r.Ok? ==> r.value == |FlashedIn(mid)| && Snap(grid) == ResetUpTo(mid, grid.Length0, grid.Length1)
  {
    mid := Snap(grid);
    if grid.Length0 == 0 {
      return Err(IndexError), mid;
    }
    RaiseAll(grid);
    var sum := FlashAll(grid);
    mid := Snap(grid);
    var ok := ResetFlashed(grid, grid.Length1);
    return Ok(sum), mid;
  }

  // ---------------------------------------------------------------------------
  // What a round promises
  // ---------------------------------------------------------------------------

  ghost predicate AllZero(v: Levels)
  {
    forall p :: p in v ==> v[p] == 0
  }

  lemma {:induction false} RowCellsCard(r: int, m: nat)
    ensures |RowCells(r, m)| == m
    decreases m
  {
    if m > 0 {
      RowCellsCard(r, m - 1);
      InRowCells(r, m - 1, (r, m - 1));
    }
  }

  lemma MulSucc(k: nat, m: nat)
    ensures (k + 1) * m == k * m + m
  {
  }

  /** An n-by-m grid has n * m cells. */
  lemma {:induction false} CellsCard(n: nat, m: nat)
    ensures |Cells(n, m)| == n * m
    decreases n
  {
    if n > 0 {
      var k := n - 1;
      CellsCard(k, m);
      RowCellsCard(k, m);
      forall p | p in Cells(k, m)
        ensures p !in RowCells(k, m)
      {
        InCells(k, m, p);
        InRowCells(k, m, p);
      }
      DisjointCard(Cells(k, m), RowCells(k, m));
      MulSucc(k, m);
    }
  }

  /**
   * From single-digit levels, a round (with the reset covering the whole
   * grid) ends with single-digit levels again, and the octopuses at 0 are
   * exactly those that flashed.
   */
  lemma RoundDigits(v: Levels, mid: Levels, n: int, m: int)
    requires v.Keys == Cells(n, m) && Digits(v)
    requires mid in Settles(Inc(v))
    ensures Digits(ResetUpTo(mid, n, m))
    ensures Zeros(ResetUpTo(mid, n, m)) == FlashedIn(mid)
  {
    var w := ResetUpTo(mid, n, m);
    forall p | p in mid
      ensures 0 <= w[p] <= 9 && (w[p] == 0 <==> mid[p] == Flashed)
    {
      InCells(n, m, p);
      if mid[p] != Flashed {
        assert RaisedAt(Inc(v), mid, {}, p);
      }
    }
  }

  /**
   * The sync test of `part_2`: a round's flash count equals the number of
   * octopuses exactly when every octopus is at 0 after it.
   */
  lemma SyncIffAllZero(v: Levels, mid: Levels, n: nat, m: nat)
    requires v.Keys == Cells(n, m) && Digits(v)
    requires mid in Settles(Inc(v))
    ensures |FlashedIn(mid)| == n * m <==> AllZero(ResetUpTo(mid, n, m))
  {
    var w := ResetUpTo(mid, n, m);
    RoundDigits(v, mid, n, m);
    CellsCard(n, m);
    SubsetCard(FlashedIn(mid), Cells(n, m));
    if AllZero(w) {
      assert Zeros(w) == Cells(n, m);
    }
    if |FlashedIn(mid)| == n * m {
      forall p | p in w
        ensures w[p] == 0
      {
        assert p in Zeros(w);
      }
    }
  }

  /** A cascade only raises: an octopus that has not flashed is at least at its starting level. */
  lemma NeverLower(v0: Levels, v: Levels, p: Pos)
    requires Cascade(v0, v, {}, {}) && p in v0
    ensures v[p] != Flashed ==> v[p] >= v0[p]
  {
    if v[p] != Flashed {
      assert RaisedAt(v0, v, {}, p);
    }
  }

  /** The flashes and the levels a cascade started from fix the levels it ends with. */
  lemma LevelsOfFlashes(v0: Levels, v: Levels, u: Levels)
    requires Shape(v0, v) && Raises(v0, v, {}) && Shape(v0, u) && Raises(v0, u, {})
    requires NewFlashes(v0, v) == NewFlashes(v0, u)
    ensures v == u
  {
    assert FlashedIn(v) == FlashedIn(v0) + NewFlashes(v0, v);
    assert FlashedIn(u) == FlashedIn(v0) + NewFlashes(v0, u);
    forall p | p in v
      ensures v[p] == u[p]
    {
      assert p in v0 && p in u;
      if v[p] == Flashed {
        assert p in FlashedIn(u);
      } else {
        assert p !in FlashedIn(u);
        assert RaisedAt(v0, v, {}, p) && RaisedAt(v0, u, {}, p);
      }
    }
  }

  /** The flashes of a whole flash of `start` are closed: every octopus they ignite flashed. */
  lemma CascadedClosed(v0: Levels, start: Pos, v: Levels)
    requires start in v0 && v0[start] != Flashed && v in Cascaded(v0, start)
    ensures Closed(v0, NewFlashes(v0, v), {start})
  {
    var nf := NewFlashes(v0, v);
    forall p | p in v0 && v0[p] != Flashed && Ignites(v0, p, nf, {start})
      ensures p in nf
    {
      assert v[p] != Flashed ==> RaisedAt(v0, v, {}, p);
    }
  }

  /**
   * `flash_octopus` is determined: from the same levels, a flash of the same
   * octopus always ends in the same levels, hence with the same count.
   */
  lemma CascadedUnique(v0: Levels, start: Pos, v: Levels, u: Levels)
    requires start in v0 && v0[start] != Flashed
    requires v in Cascaded(v0, start) && u in Cascaded(v0, start)
    ensures v == u
  {
    CascadedClosed(v0, start, v);
    CascadedClosed(v0, start, u);
    assert NewFlashes(v0, v) <= NewFlashes(v0, u);
    assert NewFlashes(v0, u) <= NewFlashes(v0, v);
    LevelsOfFlashes(v0, v, u);
  }

  /** The flashes of a settled round are closed: every octopus they ignite flashed. */
  lemma SettlesClosed(v1: Levels, v: Levels)
    requires v in Settles(v1)
    ensures Closed(v1, NewFlashes(v1, v), Hot(v1))
  {
    var nf := NewFlashes(v1, v);
    forall p | p in v1 && v1[p] != Flashed && Ignites(v1, p, nf, Hot(v1))
      ensures p in nf
    {
      assert v[p] != Flashed ==> RaisedAt(v1, v, {}, p);
    }
  }

  /**
   * The flash phase of a round is determined: from the same raised levels it
   * always ends in the same levels, so the flash count and the grid after the
   * reset are fixed too.
   */
  lemma SettlesUnique(v1: Levels, v: Levels, u: Levels)
    requires v in Settles(v1) && u in Settles(v1)
    ensures v == u
  {
    SettlesClosed(v1, v);
    SettlesClosed(v1, u);
    assert NewFlashes(v1, v) <= NewFlashes(v1, u);
    assert NewFlashes(v1, u) <= NewFlashes(v1, v);
    LevelsOfFlashes(v1, v, u);
  }

  /**
   * Octopuses that could only reach 10 by flashing each other do not flash:
   * in [[8, 8]] both are raised to 9 and the round ends without a flash.
   */
  lemma QuietPairStaysQuiet(v: Levels, mid: Levels)
    requires v == map[(0, 0) := 8, (0, 1) := 8]
    requires mid in Settles(Inc(v))
    ensures FlashedIn(mid) == {} && mid == Inc(v)
  {
    var v1 := Inc(v);
    assert Hot(v1) == {};
    forall p: Pos
      ensures Count(p, {}) == 0
    {
      assert Around(p, {}) == {};
    }
    assert Closed(v1, {}, Hot(v1));
    assert NewFlashes(v1, mid) <= {};
    assert FlashedIn(v1) == {};
    forall p | p in mid
      ensures mid[p] == v1[p]
    {
      assert RaisedAt(v1, mid, {}, p);
    }
  }

  /**
   * A flash only spreads through its neighbours: flashing (0, 0) in
   * [[0, 0, 0, 9, 9]] makes one flash, and the two far 9s stay put.
   */
  lemma FarNinesStayPut(v0: Levels, v: Levels)
    requires v0 == map[(0, 0) := 0, (0, 1) := 0, (0, 2) := 0, (0, 3) := 9, (0, 4) := 9]
    requires v in Cascaded(v0, (0, 0))
    ensures NewFlashes(v0, v) == {(0, 0)}
    ensures v[(0, 3)] == 9 && v[(0, 4)] == 9
  {
    forall p | p in v0 && v0[p] != Flashed && Ignites(v0, p, {(0, 0)}, {(0, 0)})
      ensures p in {(0, 0)}
    {
      CountSingle(p, (0, 0));
    }
    assert Closed(v0, {(0, 0)}, {(0, 0)});
    assert NewFlashes(v0, v) <= {(0, 0)};
    assert RaisedAt(v0, v, {}, (0, 3)) && RaisedAt(v0, v, {}, (0, 4));
  }

  /** After a single flash of q, every other octopus is raised once if it is next to q. */
  lemma SingleFlashLevels(v0: Levels, v: Levels, q: Pos)
    requires Shape(v0, v) && Raises(v0, v, {}) && FlashedIn(v0) == {} && NewFlashes(v0, v) == {q}
    ensures forall p :: p in v ==> v[p] == if p == q then Flashed else v0[p] + (if Adj(p, q) then 1 else 0)
  {
    assert FlashedIn(v) == {q} by {
      assert FlashedIn(v) == NewFlashes(v0, v);
    }
    forall p | p in v
      ensures v[p] == if p == q then Flashed else v0[p] + (if Adj(p, q) then 1 else 0)
    {
      assert p in FlashedIn(v) <==> p == q;
      CountSingle(p, q);
      if p != q {
        assert RaisedAt(v0, v, {}, p);
      }
    }
  }

  /** The first example of `flash_octopus`: the 10 in the middle of a grid of 1s flashes alone. */
  lemma ExampleFlash(v0: Levels, v: Levels)
    requires v0 == map[(0, 0) := 1, (0, 1) := 1, (0, 2) := 1, (1, 0) := 1, (1, 1) := 10, (1, 2) := 1,
                       (2, 0) := 1, (2, 1) := 1, (2, 2) := 1]
    requires v in Cascaded(v0, (1, 1))
    ensures |NewFlashes(v0, v)| == 1
    ensures v == map[(0, 0) := 2, (0, 1) := 2, (0, 2) := 2, (1, 0) := 2, (1, 1) := -1, (1, 2) := 2,
                     (2, 0) := 2, (2, 1) := 2, (2, 2) := 2]
  {
    forall p | p in v0 && v0[p] != Flashed && Ignites(v0, p, {(1, 1)}, {(1, 1)})
      ensures p in {(1, 1)}
    {
      CountSingle(p, (1, 1));
    }
    assert Closed(v0, {(1, 1)}, {(1, 1)});
    assert FlashedIn(v0) == {};
    assert NewFlashes(v0, v) == {(1, 1)};
    SingleFlashLevels(v0, v, (1, 1));
  }

  /** The raised levels of the first example of `simulate_round`: only the middle octopus is hot. */
  lemma ExampleRoundHot(v: Levels)
    requires v == map[(0, 0) := 0, (0, 1) := 0, (0, 2) := 0, (1, 0) := 0, (1, 1) := 9, (1, 2) := 0,
                      (2, 0) := 0, (2, 1) := 0, (2, 2) := 0]
    ensures Hot(Inc(v)) == {(1, 1)} && FlashedIn(Inc(v)) == {}
    ensures Closed(Inc(v), {(1, 1)}, Hot(Inc(v)))
  {
    var v1 := Inc(v);
    assert Hot(v1) == {(1, 1)};
    forall p | p in v1 && v1[p] != Flashed && Ignites(v1, p, {(1, 1)}, Hot(v1))
      ensures p in {(1, 1)}
    {
      CountSingle(p, (1, 1));
    }
  }

  /** The flash phase of the first example of `simulate_round`: the 9 in the middle of a grid of 0s flashes alone. */
  lemma ExampleRoundFlashes(v: Levels, mid: Levels)
    requires v == map[(0, 0) := 0, (0, 1) := 0, (0, 2) := 0, (1, 0) := 0, (1, 1) := 9, (1, 2) := 0,
                      (2, 0) := 0, (2, 1) := 0, (2, 2) := 0]
    requires mid in Settles(Inc(v))
    ensures FlashedIn(mid) == {(1, 1)}
    ensures mid == map[(0, 0) := 2, (0, 1) := 2, (0, 2) := 2, (1, 0) := 2, (1, 1) := -1, (1, 2) := 2,
                       (2, 0) := 2, (2, 1) := 2, (2, 2) := 2]
  {
    var v1 := Inc(v);
    ExampleRoundHot(v);
    SettlesClosed(v1, mid);
    assert Ignites(v1, (1, 1), NewFlashes(v1, mid), Hot(v1));
    assert NewFlashes(v1, mid) == {(1, 1)};
    SingleFlashLevels(v1, mid, (1, 1));
  }

  /** The first example of `simulate_round`: one flash, and the grid ends as 2s around a 0. */
  lemma ExampleRound(v: Levels, mid: Levels)
    requires v == map[(0, 0) := 0, (0, 1) := 0, (0, 2) := 0, (1, 0) := 0, (1, 1) := 9, (1, 2) := 0,
                      (2, 0) := 0, (2, 1) := 0, (2, 2) := 0]
    requires mid in Settles(Inc(v))
    ensures |FlashedIn(mid)| == 1
    ensures ResetUpTo(mid, 3, 3) == map[(0, 0) := 2, (0, 1) := 2, (0, 2) := 2, (1, 0) := 2, (1, 1) := 0, (1, 2) := 2,
                                        (2, 0) := 2, (2, 1) := 2, (2, 2) := 2]
  {
    ExampleRoundFlashes(v, mid);
  }

  /**
   * A wide grid under the reset loop as written: in the one-row grid
   * [[0, 9]] the second octopus flashes, but the reset loop only visits
   * column 0 (the grid has one row), so the round ends with the sentinel
   * still in place; resetting every column sets it back to 0.
   */
  lemma WideGridKeepsSentinel(v: Levels, mid: Levels)
    requires v == map[(0, 0) := 0, (0, 1) := 9]
    requires mid in Settles(Inc(v))
    ensures ResetUpTo(mid, 1, 1)[(0, 1)] == Flashed
    ensures ResetUpTo(mid, 1, 2)[(0, 1)] == 0
  {
    NeverLower(Inc(v), mid, (0, 1));
  }

  /** w is the grid after one corrected round from v on an n-by-m grid: a settled cascade of the raised levels, then reset. */
  ghost predicate IsRound(v: Levels, w: Levels, n: nat, m: nat)
  {
    exists mid :: mid in Settles(Inc(v)) && w == ResetUpTo(mid, n, m)
  }

  /** Each grid in `history` is one corrected round of the one before it, the first of v. */
  ghost predicate RoundsFrom(v: Levels, history: seq<Levels>, n: nat, m: nat)
  {
    && (|history| > 0 ==> IsRound(v, history[0], n, m))
    && (forall k :: 0 <= k < |history| - 1 ==> IsRound(history[k], history[k + 1], n, m))
  }

  /**
   * The state of the sync loop: `history` holds the rounds from `start`
   * so far, the last one (or `start` before any round) is the grid
   * `cur`, and no round before the last had every octopus at 0.
   */
  ghost predicate SyncLoop(start: Levels, history: seq<Levels>, cur: Levels, n: nat, m: nat)
  {
    && (|history| == 0 ==> cur == start)
    && (|history| > 0 ==> history[|history| - 1] == cur)
    && (forall k :: 0 <= k < |history| - 1 ==> !AllZero(history[k]))
    && RoundsFrom(start, history, n, m)
  }

  /** One more round, after a last one that did not sync, extends the history. */
  lemma SyncLoopStep(start: Levels, history: seq<Levels>, cur: Levels, w: Levels, n: nat, m: nat)
    requires SyncLoop(start, history, cur, n, m)
    requires |history| > 0 ==> !AllZero(cur)
    requires IsRound(cur, w, n, m)
    ensures SyncLoop(start, history + [w], w, n, m)
  {
    var h := history + [w];
    forall k | 0 <= k < |h| - 1
      ensures IsRound(h[k], h[k + 1], n, m) && !AllZero(h[k])
    {
      if k + 1 < |history| {
        assert h[k] == history[k] && h[k + 1] == history[k + 1];
      }
    }
    assert |h| > 0 ==> IsRound(start, h[0], n, m);
  }

  /**
   * The sync search of `part_2`: rounds are simulated until one in which
   * every octopus flashes, and its number is returned; `history` holds
   * the grid after each round. The search gives up after `fuel` rounds.
   */
  method SyncRound(grid: array2<int>, fuel: nat) returns (r: Result<Option<nat>>, ghost history: seq<Levels>)
    requires Digits(Snap(grid))
    modifies grid
    ensures r.Err? <==> grid.Length0 == 0
    ensures r.Err? ==> r.error == IndexError
    ensures r.Ok? && r.value.None? ==> |history| == fuel
    ensures r.Ok? && r.value.Some? ==> 1 <= r.value.value == |history| <= fuel && AllZero(Snap(grid))
    ensures forall k :: 0 <= k < |history| - 1 ==> !AllZero(history[k])
    ensures r.Ok? && r.value.None? && |history| > 0 ==> !AllZero(history[|history| - 1])
    ensures |history| > 0 ==> history[|history| - 1] == Snap(grid)
    ensures |history| == 0 ==> Snap(grid) == old(Snap(grid))
    ensures |history| > 0 ==> IsRound(old(Snap(grid)), history[0], grid.Length0, grid.Length1)
    ensures forall k :: 0 <= k < |history| - 1 ==> IsRound(history[k], history[k + 1], grid.Length0, grid.Length1)
    ensures Digits(Snap(grid))
  {
    history := [];
    if grid.Length0 == 0 {
      return Err(IndexError), history;
    }
    var octopuses := grid.Length0 * grid.Length1;
    var numRounds := 0;
    ghost var start := Snap(grid);
    while numRounds < fuel
      invariant 0 <= numRounds <= fuel && |history| == numRounds
      invariant Digits(Snap(grid))
      invariant SyncLoop(start, history, Snap(grid), grid.Length0, grid.Length1)
      invariant |history| > 0 ==> !AllZero(Snap(grid))
    {
      numRounds := numRounds + 1;
      ghost var v := Snap(grid);
      var res, mid := SimulateRoundCorrected(grid);
      var flashes := res.value;
      RoundDigits(v, mid, grid.Length0, grid.Length1);
      SyncIffAllZero(v, mid, grid.Length0, grid.Length1);
      ghost var w := Snap(grid);
      assert IsRound(v, w, grid.Length0, grid.Length1);
      SyncLoopStep(start, history, v, w, grid.Length0, grid.Length1);
      history := history + [w];
      if flashes == octopuses {
        return Ok(Some(numRounds)), history;
      }
    }
    return Ok(None), history;
  }
}
